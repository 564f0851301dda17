/** The hard precedence rule of the decision engine
    (core/arana/precedence.py): any blocking failure fails the document. */
module AranaPrecedence {
  import opened VerdictRecord

  /** apply_precedence. */
  function ApplyPrecedence(blockingFailures: seq<Verdict>): (status: string)
    ensures status == "FAIL" <==> |blockingFailures| > 0
    ensures status == "PASS" <==> blockingFailures == []
    ensures status == "PASS" || status == "FAIL"
  {
    if |blockingFailures| > 0 then "FAIL" else "PASS"
  }

  /** Only whether the list is empty matters, not its contents or order. */
  lemma OnlyEmptinessMatters(a: seq<Verdict>, b: seq<Verdict>)
    requires (a == []) == (b == [])
    ensures ApplyPrecedence(a) == ApplyPrecedence(b)
  {
  }
}
