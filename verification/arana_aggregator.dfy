/** Four-way partition of verdicts by failure and blocking severity
    (core/arana/aggregator.py). */
module AranaAggregator {
  import opened VerdictRecord

  datatype Category = BlockingFailure | NonBlockingFailure | BlockingPass | NonBlockingPass

  /** The list a verdict is appended to: a verdict is blocking when its
      severity is "error" and a failure when its result is "FAIL". */
  function CategoryOf(v: Verdict): (c: Category)
    ensures c == BlockingFailure <==> v.result == "FAIL" && v.severity == "error"
    ensures c == NonBlockingFailure <==> v.result == "FAIL" && v.severity != "error"
    ensures c == BlockingPass <==> v.result != "FAIL" && v.severity == "error"
    ensures c == NonBlockingPass <==> v.result != "FAIL" && v.severity != "error"
  {
    var isBlocking := v.severity == "error";
    var isFailure := v.result == "FAIL";
    if isFailure && isBlocking then BlockingFailure
    else if isFailure && !isBlocking then NonBlockingFailure
    else if !isFailure && isBlocking then BlockingPass
    else NonBlockingPass
  }

  /** The verdicts of one category, in input order. */
  function OfCategory(vs: seq<Verdict>, c: Category): (r: seq<Verdict>)
    ensures |r| <= |vs|
    ensures forall v :: v in r ==> v in vs && CategoryOf(v) == c
  {
    if vs == [] then []
    else
      var last := vs[|vs| - 1];
      OfCategory(vs[..|vs| - 1], c) + (if CategoryOf(last) == c then [last] else [])
  }

  /** aggregate_verdicts: one pass over the input, appending each verdict to
      the list of its category. */
  method AggregateVerdicts(verdicts: seq<Verdict>)
    returns (blockingFailures: seq<Verdict>, nonBlockingFailures: seq<Verdict>,
             blockingPasses: seq<Verdict>, nonBlockingPasses: seq<Verdict>)
    ensures blockingFailures == OfCategory(verdicts, BlockingFailure)
    ensures nonBlockingFailures == OfCategory(verdicts, NonBlockingFailure)
    ensures blockingPasses == OfCategory(verdicts, BlockingPass)
    ensures nonBlockingPasses == OfCategory(verdicts, NonBlockingPass)
  {
    blockingFailures, nonBlockingFailures, blockingPasses, nonBlockingPasses := [], [], [], [];
    for i := 0 to |verdicts|
      invariant blockingFailures == OfCategory(verdicts[..i], BlockingFailure)
      invariant nonBlockingFailures == OfCategory(verdicts[..i], NonBlockingFailure)
      invariant blockingPasses == OfCategory(verdicts[..i], BlockingPass)
      invariant nonBlockingPasses == OfCategory(verdicts[..i], NonBlockingPass)
    {
      var v := verdicts[i];
      OfCategoryExtend(verdicts, i, BlockingFailure);
      OfCategoryExtend(verdicts, i, NonBlockingFailure);
      OfCategoryExtend(verdicts, i, BlockingPass);
      OfCategoryExtend(verdicts, i, NonBlockingPass);
      var isBlocking := v.severity == "error";
      var isFailure := v.result == "FAIL";
      if isFailure && isBlocking {
        blockingFailures := blockingFailures + [v];
      } else if isFailure && !isBlocking {
        nonBlockingFailures := nonBlockingFailures + [v];
      } else if !isFailure && isBlocking {
        blockingPasses := blockingPasses + [v];
      } else {
        nonBlockingPasses := nonBlockingPasses + [v];
      }
    }
    assert verdicts[..|verdicts|] == verdicts;
  }

  /** One more verdict read: its category's list grows by it, the others stay. */
  lemma OfCategoryExtend(vs: seq<Verdict>, i: nat, c: Category)
    requires i < |vs|
    ensures OfCategory(vs[..i + 1], c) == OfCategory(vs[..i], c) + (if CategoryOf(vs[i]) == c then [vs[i]] else [])
  {
    assert vs[..i + 1][..i] == vs[..i];
  }

  // ---------------------------------------------------------------------------
  // The four lists partition the input

  /** How many copies of `v` a category list holds: all of the input's when
      `v` belongs to that category, none otherwise. */
  lemma {:induction false} OfCategoryCount(vs: seq<Verdict>, c: Category, v: Verdict)
    ensures multiset(OfCategory(vs, c))[v] == if CategoryOf(v) == c then multiset(vs)[v] else 0
  {
    if vs != [] {
      var init, last := vs[..|vs| - 1], vs[|vs| - 1];
      assert vs == init + [last];
      OfCategoryCount(init, c, v);
    }
  }

  /** Every verdict lands in exactly one list: the four lists together hold
      each input verdict as often as the input does. */
  lemma PartitionMultiset(vs: seq<Verdict>)
    ensures multiset(OfCategory(vs, BlockingFailure)) + multiset(OfCategory(vs, NonBlockingFailure))
          + multiset(OfCategory(vs, BlockingPass)) + multiset(OfCategory(vs, NonBlockingPass))
         == multiset(vs)
  {
    forall v
      ensures (multiset(OfCategory(vs, BlockingFailure)) + multiset(OfCategory(vs, NonBlockingFailure))
               + multiset(OfCategory(vs, BlockingPass)) + multiset(OfCategory(vs, NonBlockingPass)))[v]
              == multiset(vs)[v]
    {
      OfCategoryCount(vs, BlockingFailure, v);
      OfCategoryCount(vs, NonBlockingFailure, v);
      OfCategoryCount(vs, BlockingPass, v);
      OfCategoryCount(vs, NonBlockingPass, v);
    }
  }

  /** The lengths of the four lists add up to the input's. */
  lemma PartitionLengths(vs: seq<Verdict>)
    ensures |OfCategory(vs, BlockingFailure)| + |OfCategory(vs, NonBlockingFailure)|
          + |OfCategory(vs, BlockingPass)| + |OfCategory(vs, NonBlockingPass)| == |vs|
  {
    PartitionMultiset(vs);
  }

  /** A verdict of the input is in the list of its own category and in no
      other. */
  lemma MembershipIff(vs: seq<Verdict>, v: Verdict, c: Category)
    ensures v in OfCategory(vs, c) <==> v in vs && CategoryOf(v) == c
  {
    OfCategoryCount(vs, c, v);
  }

  /** Each list keeps the input's relative order: filtering a concatenation
      concatenates the filtered parts. */
  lemma {:induction false} OfCategoryConcat(a: seq<Verdict>, b: seq<Verdict>, c: Category)
    ensures OfCategory(a + b, c) == OfCategory(a, c) + OfCategory(b, c)
    decreases |b|
  {
    if b != [] {
      var init := b[..|b| - 1];
      assert (a + b)[..|a + b| - 1] == a + init;
      OfCategoryConcat(a, init, c);
    } else {
      assert a + b == a;
    }
  }

  /** Reordering the input reorders each list but keeps its contents. */
  lemma OfCategoryPermutation(vs1: seq<Verdict>, vs2: seq<Verdict>, c: Category)
    requires multiset(vs1) == multiset(vs2)
    ensures multiset(OfCategory(vs1, c)) == multiset(OfCategory(vs2, c))
  {
    forall v
      ensures multiset(OfCategory(vs1, c))[v] == multiset(OfCategory(vs2, c))[v]
    {
      OfCategoryCount(vs1, c, v);
      OfCategoryCount(vs2, c, v);
    }
  }
}
