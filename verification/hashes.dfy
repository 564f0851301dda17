/** Content hashing (core/models/hashes.py): SHA-256 over bytes, over the
    UTF-8 encoding of a string, and over the canonical JSON text of a value. */
module Hashes {
  import opened CanonicalJson

  newtype byte = x: int | 0 <= x < 256

  // ---------------------------------------------------------------------------
  // UTF-8

  /** The UTF-8 encoding of one character (1 to 4 bytes). */
  function EncodeChar(c: char): (r: seq<byte>)
    ensures 1 <= |r| <= 4
    ensures (c as int) < 0x80 <==> |r| == 1
    ensures (c as int) < 0x80 ==> r[0] as int == c as int
  {
    var n := c as int;
    if n < 0x80 then [n as byte]
    else if n < 0x800 then [(0xC0 + n / 0x40) as byte, (0x80 + n % 0x40) as byte]
    else if n < 0x10000 then
      [(0xE0 + n / 0x1000) as byte, (0x80 + n / 0x40 % 0x40) as byte, (0x80 + n % 0x40) as byte]
    else
      [(0xF0 + n / 0x40000) as byte, (0x80 + n / 0x1000 % 0x40) as byte,
       (0x80 + n / 0x40 % 0x40) as byte, (0x80 + n % 0x40) as byte]
  }

  /** `s.encode('utf-8')`. */
  function Utf8(s: string): (r: seq<byte>)
    ensures |r| >= |s|
  {
    if s == [] then [] else EncodeChar(s[0]) + Utf8(s[1..])
  }

  /** On ASCII text UTF-8 is one byte per character, each byte the
      character's code. */
  lemma {:induction false} Utf8Ascii(s: string)
    requires AsciiText(s)
    ensures |Utf8(s)| == |s|
    ensures forall i :: 0 <= i < |s| ==> Utf8(s)[i] as int == s[i] as int
  {
    if s != [] {
      assert AsciiText(s[1..]) by {
        assert forall i :: 0 <= i < |s[1..]| ==> s[1..][i] == s[i + 1];
      }
      Utf8Ascii(s[1..]);
    }
  }

  /** Different ASCII texts have different encodings. */
  lemma Utf8AsciiInjective(s: string, t: string)
    requires AsciiText(s) && AsciiText(t) && s != t
    ensures Utf8(s) != Utf8(t)
  {
    Utf8Ascii(s);
    Utf8Ascii(t);
    if |s| == |t| {
      var i :| 0 <= i < |s| && s[i] != t[i];
      assert Utf8(s)[i] != Utf8(t)[i];
    }
  }

  // ---------------------------------------------------------------------------
  // Digest

  predicate IsLowerHex(h: string) {
    forall i :: 0 <= i < |h| ==> '0' <= h[i] <= '9' || 'a' <= h[i] <= 'f'
  }

  /** The `width` low-order hexadecimal digits of `n`, most significant first. */
  function HexText(n: nat, width: nat): (r: string)
    ensures |r| == width && IsLowerHex(r)
  {
    if width == 0 then "" else HexText(n / 16, width - 1) + [HexDigit(n % 16)]
  }

  const DigestModulus: nat := 0x1_0000_0000_0000_0000_0000_0000_0000_0000_0000_0000_0000_0000_0000_0000_0000_0000

  function Fold(data: seq<byte>): nat {
    if data == [] then 0 else (Fold(data[..|data| - 1]) * 257 + data[|data| - 1] as int + 1) % DigestModulus
  }

  /** `hashlib.sha256(data).hexdigest()`: 64 lower-case hexadecimal digits.
      The body is a stand-in for FIPS 180-4 SHA-256; only the shape of the
      digest is stated about it. */
  function Sha256Hex(data: seq<byte>): (h: string)
    ensures |h| == 64 && IsLowerHex(h)
  {
    HexText(Fold(data), 64)
  }

  // ---------------------------------------------------------------------------
  // The three hash functions

  /** hash_bytes. */
  function HashBytes(data: seq<byte>): (h: string)
    ensures |h| == 64 && IsLowerHex(h)
  {
    Sha256Hex(data)
  }

  /** The bytes hash_json feeds to SHA-256: the UTF-8 encoding of the
      compact, key-sorted serialisation. */
  function DigestInput(j: Json): (r: seq<byte>)
    ensures |r| == |Dumps(j, Compact)|
  {
    Utf8Ascii(Dumps(j, Compact));
    Utf8(Dumps(j, Compact))
  }

  /** hash_json. */
  function HashJson(j: Json): (h: string)
    ensures |h| == 64 && IsLowerHex(h)
  {
    HashBytes(DigestInput(j))
  }

  /** hash_string. */
  function HashString(t: string): (h: string)
    ensures |h| == 64 && IsLowerHex(h)
  {
    HashBytes(Utf8(t))
  }

  // ---------------------------------------------------------------------------
  // Properties

  /** Two values whose canonical texts differ are hashed over different bytes. */
  lemma DigestInputInjective(j1: Json, j2: Json)
    requires Dumps(j1, Compact) != Dumps(j2, Compact)
    ensures DigestInput(j1) != DigestInput(j2)
  {
    Utf8AsciiInjective(Dumps(j1, Compact), Dumps(j2, Compact));
  }

  /** A dict's hash does not depend on the order its keys were inserted in. */
  lemma HashJsonKeyOrderIndependent(ms1: seq<(string, Json)>, ms2: seq<(string, Json)>)
    requires DistinctKeys(ms1) && DistinctKeys(ms2)
    requires multiset(ms1) == multiset(ms2)
    ensures HashJson(JObj(ms1)) == HashJson(JObj(ms2))
  {
    KeyOrderIndependent(ms1, ms2, Compact);
  }

  /** Two dicts with the same keys in the same order whose values differ
      only in strings, booleans and nulls are hashed over the same bytes only when
      they are equal. */
  lemma HashJsonScalarSensitive(ms1: seq<(string, Json)>, ms2: seq<(string, Json)>)
    requires DistinctKeys(ms1) && Keys(ms1) == Keys(ms2)
    requires forall i :: 0 <= i < |ms1| ==> ms1[i].1 == ms2[i].1 || (Scalar(ms1[i].1) && Scalar(ms2[i].1))
    requires ms1 != ms2
    ensures DigestInput(JObj(ms1)) != DigestInput(JObj(ms2))
  {
    ScalarObjectSensitive(ms1, ms2, Compact);
    DigestInputInjective(JObj(ms1), JObj(ms2));
  }

  /** List order is not normalised: exchanging two different strings of a
      list changes the bytes that are hashed. */
  lemma HashJsonListOrderSensitive(items: seq<Json>, i: nat, j: nat)
    requires i < j < |items|
    requires items[i].JStr? && items[j].JStr? && items[i] != items[j]
    ensures DigestInput(JArr(items)) != DigestInput(JArr(items[i := items[j]][j := items[i]]))
  {
    ArrayOrderSensitive(items, i, j, Compact);
    DigestInputInjective(JArr(items), JArr(items[i := items[j]][j := items[i]]));
  }

  /** {'field': 'value'} and {'field': 'VALUE'} are hashed over different bytes. */
  lemma CaseChangeSensitive()
    ensures DigestInput(JObj([("field", JStr("value"))])) != DigestInput(JObj([("field", JStr("VALUE"))]))
  {
    var ms1, ms2 := [("field", JStr("value"))], [("field", JStr("VALUE"))];
    assert Keys(ms1) == Keys(ms2);
    assert ms1[0].1 != ms2[0].1;
    HashJsonScalarSensitive(ms1, ms2);
  }
}
