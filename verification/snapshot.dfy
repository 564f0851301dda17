/** A content-addressed document snapshot (core/models/snapshot.py). Its id
    is computed from its content and is not a constructor argument. */
module SnapshotRecord {
  import opened CanonicalJson
  import opened Hashes

  datatype Snapshot = Snapshot(
    documentName: string,
    documentHash: string,
    extractedFields: seq<(string, Json)>,
    extractionTimestamp: string,
    extractionVersion: string)
  {
    /** The dict whose hash is the snapshot id: the five content fields,
        the extracted fields as a nested dict. */
    function Content(): (c: Json)
      ensures c.JObj? && DistinctKeys(c.members)
      ensures Keys(c.members) == ["document_name", "document_hash", "extracted_fields",
                                  "extraction_timestamp", "extraction_version"]
    {
      JObj([("document_name", JStr(documentName)),
            ("document_hash", JStr(documentHash)),
            ("extracted_fields", JObj(extractedFields)),
            ("extraction_timestamp", JStr(extractionTimestamp)),
            ("extraction_version", JStr(extractionVersion))])
    }

    /** snapshot_id. */
    function Id(): (id: string)
      ensures |id| == 64 && IsLowerHex(id)
    {
      HashJson(Content())
    }

    /** `__eq__`: two snapshots are equal exactly when their ids are. */
    function Equals(other: Snapshot): (eq: bool)
      ensures Content() == other.Content() ==> eq
    {
      Id() == other.Id()
    }
  }

  /** The hashed dict holds every content field: two snapshots have the same
      dict exactly when they are the same snapshot. */
  lemma ContentInjective(s1: Snapshot, s2: Snapshot)
    ensures s1.Content() == s2.Content() <==> s1 == s2
  {
    if s1.Content() == s2.Content() {
      assert s1.Content().members[2].1 == s2.Content().members[2].1;
    }
  }

  /** The insertion order of the extracted fields does not affect the id. */
  lemma ExtractedFieldOrderIndependent(s1: Snapshot, s2: Snapshot)
    requires s1.documentName == s2.documentName && s1.documentHash == s2.documentHash
    requires s1.extractionTimestamp == s2.extractionTimestamp && s1.extractionVersion == s2.extractionVersion
    requires DistinctKeys(s1.extractedFields) && DistinctKeys(s2.extractedFields)
    requires multiset(s1.extractedFields) == multiset(s2.extractedFields)
    ensures s1.Id() == s2.Id() && s1.Equals(s2)
  {
    KeyOrderIndependent(s1.extractedFields, s2.extractedFields, Compact);
    var m1, m2 := s1.Content().members, s2.Content().members;
    assert forall i :: 0 <= i < |m1| && i != 2 ==> m1[i] == m2[i];
    ValuesCongruent(m1, m2, Compact);
  }

  /** With the same extracted fields, snapshots that differ in any other
      content field are hashed over different bytes. */
  lemma DistinctSnapshotsDistinctDigestInput(s1: Snapshot, s2: Snapshot)
    requires s1.extractedFields == s2.extractedFields && s1 != s2
    ensures DigestInput(s1.Content()) != DigestInput(s2.Content())
  {
    ContentInjective(s1, s2);
    HashJsonScalarSensitive(s1.Content().members, s2.Content().members);
  }
}
