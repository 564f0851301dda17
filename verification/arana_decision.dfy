/** The final decision record (core/arana/decision.py): status and verdict
    lists as supplied, and a hash over the status and the SORTED verdict ids
    of each list, so that list order does not matter. The hash is not a
    constructor argument. */
module AranaDecision {
  import opened Sorting
  import opened CanonicalJson
  import opened Hashes
  import opened VerdictRecord

  function IdOf(v: Verdict): string {
    v.Id()
  }

  /** `sorted([v.verdict_id for v in vs])`. */
  function SortedIds(vs: seq<Verdict>): (ids: seq<string>)
    ensures Sorted(ids) && |ids| == |vs|
    ensures multiset(ids) == multiset(Map(IdOf, vs))
  {
    SortStrings(Map(IdOf, vs))
  }

  /** Permuting a verdict list leaves its sorted id list unchanged. */
  lemma SortedIdsPermutation(vs1: seq<Verdict>, vs2: seq<Verdict>)
    requires multiset(vs1) == multiset(vs2)
    ensures SortedIds(vs1) == SortedIds(vs2)
  {
    MapPermutation(IdOf, vs1, vs2);
    SortPermutationInvariant(Map(IdOf, vs1), Map(IdOf, vs2));
  }

  /** The hashed dict of a decision, given its status and its three id lists. */
  function DecisionDict(status: string, b: seq<string>, n: seq<string>, a: seq<string>): (c: Json)
    ensures c.JObj? && DistinctKeys(c.members)
    ensures Keys(c.members) == ["status", "blocking_failures", "non_blocking_failures", "all_verdicts"]
    ensures c.members[0].1 == JStr(status)
    ensures c.members[1].1 == StringList(b) && c.members[2].1 == StringList(n) && c.members[3].1 == StringList(a)
    ensures forall i :: 1 <= i < |c.members| ==> c.members[i].1.JArr?
  {
    var ms := [("status", JStr(status)),
               ("blocking_failures", StringList(b)),
               ("non_blocking_failures", StringList(n)),
               ("all_verdicts", StringList(a))];
    assert Keys(ms) == ["status", "blocking_failures", "non_blocking_failures", "all_verdicts"];
    JObj(ms)
  }

  datatype Decision = Decision(
    status: string,
    blockingFailures: seq<Verdict>,
    nonBlockingFailures: seq<Verdict>,
    allVerdicts: seq<Verdict>)
  {
    /** The dict whose hash is the decision hash. */
    function Content(): (c: Json)
      ensures c.JObj? && DistinctKeys(c.members)
      ensures Keys(c.members) == ["status", "blocking_failures", "non_blocking_failures", "all_verdicts"]
    {
      DecisionDict(status, SortedIds(blockingFailures), SortedIds(nonBlockingFailures), SortedIds(allVerdicts))
    }

    /** decision_hash: a 64-digit hex digest, also when every list is empty. */
    function Hash(): (h: string)
      ensures |h| == 64 && IsLowerHex(h)
    {
      HashJson(Content())
    }
  }

  /** Permuting any of the three verdict lists leaves the hash unchanged. */
  lemma HashPermutationInvariant(d: Decision, bf: seq<Verdict>, nbf: seq<Verdict>, all: seq<Verdict>)
    requires multiset(bf) == multiset(d.blockingFailures)
    requires multiset(nbf) == multiset(d.nonBlockingFailures)
    requires multiset(all) == multiset(d.allVerdicts)
    ensures Decision(d.status, bf, nbf, all).Hash() == d.Hash()
  {
    SortedIdsPermutation(bf, d.blockingFailures);
    SortedIdsPermutation(nbf, d.nonBlockingFailures);
    SortedIdsPermutation(all, d.allVerdicts);
  }

  /** With the same verdict lists, decisions of different status are hashed
      over different bytes. */
  lemma StatusReachesDigestInput(d: Decision, status: string)
    requires status != d.status
    ensures DigestInput(d.(status := status).Content()) != DigestInput(d.Content())
  {
    var m1, m2 := d.(status := status).Content().members, d.Content().members;
    assert m1[0].1 != m2[0].1;
    forall i | 0 <= i < |m1|
      ensures m1[i].1 == m2[i].1 || (Scalar(m1[i].1) && Scalar(m2[i].1))
    {
      if i > 0 {
        assert i == 1 || i == 2 || i == 3;
      }
    }
    HashJsonScalarSensitive(m1, m2);
  }
}
