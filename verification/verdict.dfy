/** A content-addressed verdict (core/models/verdict.py). Its id is computed
    from its content over the SORTED evidence ids, so the order in which the
    evidence ids were given does not matter; the stored list keeps that order. */
module VerdictRecord {
  import opened Sorting
  import opened CanonicalJson
  import opened Hashes

  datatype Verdict = Verdict(
    ruleId: string,
    snapshotId: string,
    result: string,
    evidenceIds: seq<string>,
    reasoning: string,
    severity: string)
  {
    /** The dict whose hash is the verdict id: the six content fields, the
        evidence ids in sorted order. */
    function Content(): (c: Json)
      ensures c.JObj? && DistinctKeys(c.members)
      ensures Keys(c.members) == ["rule_id", "snapshot_id", "result", "evidence_ids", "reasoning", "severity"]
      ensures forall i :: 0 <= i < |c.members| && i != 3 ==> c.members[i].1.JStr?
    {
      var ms := [("rule_id", JStr(ruleId)),
                 ("snapshot_id", JStr(snapshotId)),
                 ("result", JStr(result)),
                 ("evidence_ids", StringList(SortStrings(evidenceIds))),
                 ("reasoning", JStr(reasoning)),
                 ("severity", JStr(severity))];
      assert Keys(ms) == ["rule_id", "snapshot_id", "result", "evidence_ids", "reasoning", "severity"];
      JObj(ms)
    }

    /** verdict_id. */
    function Id(): (id: string)
      ensures |id| == 64 && IsLowerHex(id)
    {
      HashJson(Content())
    }

    /** `__eq__`: two verdicts are equal exactly when their ids are. */
    function Equals(other: Verdict): (eq: bool)
      ensures Content() == other.Content() ==> eq
    {
      Id() == other.Id()
    }
  }

  /** Permuting the evidence ids leaves the verdict id unchanged. */
  lemma EvidenceOrderIndependent(v: Verdict, ids: seq<string>)
    requires multiset(ids) == multiset(v.evidenceIds)
    ensures v.(evidenceIds := ids).Id() == v.Id()
    ensures v.(evidenceIds := ids).Equals(v)
  {
    SortPermutationInvariant(ids, v.evidenceIds);
  }

  lemma StringListInjective(a: seq<string>, b: seq<string>)
    requires StringList(a) == StringList(b)
    ensures a == b
  {
    assert |a| == |b|;
    forall i | 0 <= i < |a|
      ensures a[i] == b[i]
    {
      assert StringList(a).items[i] == StringList(b).items[i];
    }
  }

  /** Two verdicts have the same hashed dict exactly when they agree on every
      field except the evidence ids, and hold the same evidence ids in any
      order. */
  lemma ContentCharacterisation(v1: Verdict, v2: Verdict)
    ensures v1.Content() == v2.Content() <==>
              v1.(evidenceIds := []) == v2.(evidenceIds := []) &&
              multiset(v1.evidenceIds) == multiset(v2.evidenceIds)
  {
    if v1.Content() == v2.Content() {
      assert v1.Content().members[3].1 == v2.Content().members[3].1;
      StringListInjective(SortStrings(v1.evidenceIds), SortStrings(v2.evidenceIds));
    }
    if multiset(v1.evidenceIds) == multiset(v2.evidenceIds) {
      SortPermutationInvariant(v1.evidenceIds, v2.evidenceIds);
    }
  }

  /** With the same evidence ids (in any order), verdicts that differ in any
      other content field are hashed over different bytes. */
  lemma DistinctVerdictsDistinctDigestInput(v1: Verdict, v2: Verdict)
    requires multiset(v1.evidenceIds) == multiset(v2.evidenceIds)
    requires v1.(evidenceIds := []) != v2.(evidenceIds := [])
    ensures DigestInput(v1.Content()) != DigestInput(v2.Content())
  {
    ContentCharacterisation(v1, v2);
    SortPermutationInvariant(v1.evidenceIds, v2.evidenceIds);
    var m1, m2 := v1.Content().members, v2.Content().members;
    assert m1 != m2;
    assert m1[3] == m2[3];
    HashJsonScalarSensitive(m1, m2);
  }
}
