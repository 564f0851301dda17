/** A content-addressed rule definition (core/models/rule.py). The record is
    immutable; its id is computed from its content and is not a constructor
    argument, so a caller cannot supply one. */
module RuleRecord {
  import opened Wrappers
  import opened CanonicalJson
  import opened Hashes

  datatype Rule = Rule(
    code: string,
    version: string,
    description: string,
    logicType: string,
    consequent: string,
    evidenceField: string,
    severity: string,
    condition: Option<string> := None)
  {
    /** The dict whose hash is the rule id: the eight content fields, with
        a missing condition written as null. */
    function Content(): (c: Json)
      ensures c.JObj? && DistinctKeys(c.members)
      ensures Keys(c.members) == ["code", "version", "description", "logic_type",
                                  "condition", "consequent", "evidence_field", "severity"]
      ensures forall i :: 0 <= i < |c.members| ==> Scalar(c.members[i].1)
    {
      JObj([("code", JStr(code)),
            ("version", JStr(version)),
            ("description", JStr(description)),
            ("logic_type", JStr(logicType)),
            ("condition", Nullable(condition)),
            ("consequent", JStr(consequent)),
            ("evidence_field", JStr(evidenceField)),
            ("severity", JStr(severity))])
    }

    /** rule_id. */
    function Id(): (id: string)
      ensures |id| == 64 && IsLowerHex(id)
    {
      HashJson(Content())
    }

    /** `__eq__`: two rules are equal exactly when their ids are. */
    function Equals(other: Rule): (eq: bool)
      ensures Content() == other.Content() ==> eq
    {
      Id() == other.Id()
    }
  }

  /** The hashed dict holds every content field: two rules have the same
      dict exactly when they are the same rule. */
  lemma ContentInjective(r1: Rule, r2: Rule)
    ensures r1.Content() == r2.Content() <==> r1 == r2
  {
    if r1.Content() == r2.Content() {
      var m1, m2 := r1.Content().members, r2.Content().members;
      assert m1[4].1 == m2[4].1;
      assert r1.condition == r2.condition;
    }
  }

  /** A rule built without a condition hashes a null condition. */
  lemma DefaultConditionHashed(code: string, version: string, description: string, logicType: string,
                               consequent: string, evidenceField: string, severity: string)
    ensures Get(Rule(code, version, description, logicType, consequent, evidenceField, severity).Content().members,
                "condition") == Some(JNull)
  {
    var c := Rule(code, version, description, logicType, consequent, evidenceField, severity).Content();
    assert Keys(c.members)[4] == "condition";
    IndexOfDistinct(c.members, 4);
  }

  /** Different rules are hashed over different bytes: a change to any
      content field, the condition included, reaches the digest input. */
  lemma DistinctRulesDistinctDigestInput(r1: Rule, r2: Rule)
    requires r1 != r2
    ensures DigestInput(r1.Content()) != DigestInput(r2.Content())
  {
    ContentInjective(r1, r2);
    HashJsonScalarSensitive(r1.Content().members, r2.Content().members);
  }
}
