/** The decision engine as a pipeline stage (core/arana/stage.py):
    aggregate, apply precedence, build the decision. */
module AranaStage {
  import opened VerdictRecord
  import opened AranaAggregator
  import opened AranaPrecedence
  import opened AranaDecision

  /** The stage result type this stage defines for itself. */
  datatype AranaStageResult = AranaStageResult(blocking: bool, ok: bool, output: Decision)

  /** The result the stage computes, stated on the category filters. */
  function Decide(verdicts: seq<Verdict>): (r: AranaStageResult)
    ensures r.blocking && r.output.allVerdicts == verdicts
    ensures r.output.status == "PASS" || r.output.status == "FAIL"
    ensures r.ok <==> r.output.status == "PASS"
  {
    var blockingFailures := OfCategory(verdicts, BlockingFailure);
    var status := ApplyPrecedence(blockingFailures);
    AranaStageResult(true, status == "PASS",
                     Decision(status, blockingFailures, OfCategory(verdicts, NonBlockingFailure), verdicts))
  }

  /** AranaStage.execute. */
  method Execute(verdicts: seq<Verdict>) returns (r: AranaStageResult)
    ensures r == Decide(verdicts)
    ensures r.blocking && r.output.allVerdicts == verdicts
    ensures r.output.status == "FAIL" <==> exists v :: v in verdicts && v.result == "FAIL" && v.severity == "error"
    ensures r.ok <==> r.output.status == "PASS"
  {
    var blockingFailures, nonBlockingFailures, _, _ := AggregateVerdicts(verdicts);
    var status := ApplyPrecedence(blockingFailures);
    var decision := Decision(status, blockingFailures, nonBlockingFailures, verdicts);
    r := AranaStageResult(true, status == "PASS", decision);
    FailIffBlockingFailure(verdicts);
  }

  /** The decision fails exactly when some verdict is an error-severity
      failure; otherwise it passes. */
  lemma FailIffBlockingFailure(verdicts: seq<Verdict>)
    ensures Decide(verdicts).output.status == "FAIL" <==>
              exists v :: v in verdicts && v.result == "FAIL" && v.severity == "error"
    ensures Decide(verdicts).output.status == "PASS" <==>
              forall v :: v in verdicts ==> v.result != "FAIL" || v.severity != "error"
  {
    var bf := OfCategory(verdicts, BlockingFailure);
    if v :| v in verdicts && v.result == "FAIL" && v.severity == "error" {
      MembershipIff(verdicts, v, BlockingFailure);
    }
    if |bf| > 0 {
      assert bf[0] in bf;
    }
  }

  /** No verdicts: the decision passes and the stage is ok. */
  lemma EmptyInputPasses()
    ensures Decide([]).output.status == "PASS" && Decide([]).ok
  {
  }

  /** Reordering the verdicts changes neither the status nor the hash. */
  lemma OrderIndependent(vs1: seq<Verdict>, vs2: seq<Verdict>)
    requires multiset(vs1) == multiset(vs2)
    ensures Decide(vs1).output.status == Decide(vs2).output.status
    ensures Decide(vs1).ok == Decide(vs2).ok
    ensures Decide(vs1).output.Hash() == Decide(vs2).output.Hash()
  {
    OfCategoryPermutation(vs1, vs2, BlockingFailure);
    OfCategoryPermutation(vs1, vs2, NonBlockingFailure);
    var bf1, bf2 := OfCategory(vs1, BlockingFailure), OfCategory(vs2, BlockingFailure);
    assert |bf1| == |multiset(bf1)| == |multiset(bf2)| == |bf2|;
    HashPermutationInvariant(Decide(vs2).output, bf1, OfCategory(vs1, NonBlockingFailure), vs1);
  }
}
