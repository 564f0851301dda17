/** A content-addressed piece of extracted evidence (core/models/evidence.py).
    Its id is computed from its content and is not a constructor argument. */
module EvidenceRecord {
  import opened Wrappers
  import opened CanonicalJson
  import opened Hashes

  datatype Evidence = Evidence(
    fieldPath: string,
    extractedValue: string,
    valueType: string,
    confidence: real,
    sourceContext: Option<string> := None)
  {
    /** The dict whose hash is the evidence id: the five content fields,
        with a missing source context written as null. */
    function Content(): (c: Json)
      ensures c.JObj? && DistinctKeys(c.members)
      ensures Keys(c.members) == ["field_path", "extracted_value", "value_type", "confidence", "source_context"]
    {
      JObj([("field_path", JStr(fieldPath)),
            ("extracted_value", JStr(extractedValue)),
            ("value_type", JStr(valueType)),
            ("confidence", JNum(confidence)),
            ("source_context", Nullable(sourceContext))])
    }

    /** evidence_id. */
    function Id(): (id: string)
      ensures |id| == 64 && IsLowerHex(id)
    {
      HashJson(Content())
    }

    /** `__eq__`: two pieces of evidence are equal exactly when their ids are. */
    function Equals(other: Evidence): (eq: bool)
      ensures Content() == other.Content() ==> eq
    {
      Id() == other.Id()
    }
  }

  /** The hashed dict holds every content field: two pieces of evidence have
      the same dict exactly when they are the same. */
  lemma ContentInjective(e1: Evidence, e2: Evidence)
    ensures e1.Content() == e2.Content() <==> e1 == e2
  {
    if e1.Content() == e2.Content() {
      assert e1.Content().members[4].1 == e2.Content().members[4].1;
    }
  }

  /** Evidence built without a source context hashes a null context. */
  lemma DefaultSourceContextHashed(fieldPath: string, extractedValue: string, valueType: string, confidence: real)
    ensures Get(Evidence(fieldPath, extractedValue, valueType, confidence).Content().members,
                "source_context") == Some(JNull)
  {
    var c := Evidence(fieldPath, extractedValue, valueType, confidence).Content();
    assert Keys(c.members)[4] == "source_context";
    IndexOfDistinct(c.members, 4);
  }

  /** With the same confidence, evidence that differs in any other content
      field, the source context included, is hashed over different bytes. */
  lemma DistinctEvidenceDistinctDigestInput(e1: Evidence, e2: Evidence)
    requires e1.confidence == e2.confidence && e1 != e2
    ensures DigestInput(e1.Content()) != DigestInput(e2.Content())
  {
    ContentInjective(e1, e2);
    HashJsonScalarSensitive(e1.Content().members, e2.Content().members);
  }
}
