/** `json.dumps(obj, sort_keys=True, separators=...)` over a tree of JSON
    values: the canonical text that every content hash is taken over
    (core/models/hashes.py). Keys are sorted, separators are fixed, and with
    the default `ensure_ascii` every character outside printable ASCII is
    written as a `\uXXXX` escape, so the text is pure ASCII. */
module CanonicalJson {
  import opened Wrappers
  import opened Sorting

  /** A JSON-serialisable Python value. An object keeps the insertion order
      of the dict it stands for; numbers are real-valued. */
  datatype Json =
    | JNull
    | JBool(b: bool)
    | JNum(n: real)
    | JStr(s: string)
    | JArr(items: seq<Json>)
    | JObj(members: seq<(string, Json)>)

  /** The `separators` argument of json.dumps: item separator, key separator. */
  datatype Separators = Separators(item: string, key: string)

  /** `separators=(',', ':')`, as hash_json passes them. */
  const Compact := Separators(",", ":")

  /** json.dumps's default separators `(', ', ': ')`. */
  const Spaced := Separators(", ", ": ")

  /** A Python `Optional[str]`: null for None. */
  function Nullable(o: Option<string>): (j: Json)
    ensures Scalar(j)
    ensures j.JNull? <==> o.None?
  {
    match o
    case None => JNull
    case Some(s) => JStr(s)
  }

  function AsJson(s: string): Json {
    JStr(s)
  }

  /** A Python list of strings. */
  function StringList(ss: seq<string>): (j: Json)
    ensures j.JArr? && |j.items| == |ss|
    ensures forall i :: 0 <= i < |ss| ==> j.items[i] == JStr(ss[i])
  {
    JArr(Map(AsJson, ss))
  }

  // ---------------------------------------------------------------------------
  // Dict access

  function KeyOf(m: (string, Json)): string {
    m.0
  }

  function Keys(ms: seq<(string, Json)>): (ks: seq<string>)
    ensures |ks| == |ms|
    ensures forall i :: 0 <= i < |ms| ==> ks[i] == ms[i].0
  {
    Map(KeyOf, ms)
  }

  /** A Python dict never holds a key twice. */
  predicate DistinctKeys(ms: seq<(string, Json)>) {
    forall i, j :: 0 <= i < j < |ms| ==> ms[i].0 != ms[j].0
  }

  predicate DistinctStrings(ks: seq<string>) {
    forall i, j :: 0 <= i < j < |ks| ==> ks[i] != ks[j]
  }

  lemma DistinctKeysFromKeys(ms: seq<(string, Json)>)
    requires DistinctStrings(Keys(ms))
    ensures DistinctKeys(ms)
  {
    var ks := Keys(ms);
    assert forall i, j :: 0 <= i < j < |ms| ==> ks[i] != ks[j];
  }

  /** Position of the first member whose key is `k`. */
  function IndexOf(ms: seq<(string, Json)>, k: string): (i: nat)
    requires k in Keys(ms)
    ensures i < |ms| && ms[i].0 == k
    ensures forall j :: 0 <= j < i ==> ms[j].0 != k
  {
    if ms[0].0 == k then 0
    else
      assert k in Keys(ms[1..]) by {
        var i :| 0 <= i < |ms| && Keys(ms)[i] == k;
        assert Keys(ms[1..])[i - 1] == k;
      }
      IndexOf(ms[1..], k) + 1
  }

  /** In a dict, the member with key `k` is the only one with that key. */
  lemma IndexOfDistinct(ms: seq<(string, Json)>, i: nat)
    requires DistinctKeys(ms) && i < |ms|
    ensures ms[i].0 in Keys(ms) && IndexOf(ms, ms[i].0) == i
  {
    assert Keys(ms)[i] == ms[i].0;
  }

  /** `d.get(k)`: the value stored under `k`, or None when `k` is absent. */
  function Get(ms: seq<(string, Json)>, k: string): (r: Option<Json>)
    ensures r.None? <==> k !in Keys(ms)
    ensures r.Some? ==> exists i :: 0 <= i < |ms| && ms[i] == (k, r.value)
  {
    if k in Keys(ms) then Some(ms[IndexOf(ms, k)].1) else None
  }

  // ---------------------------------------------------------------------------
  // Strings

  function DigitChar(d: nat): (c: char)
    requires d < 10
    ensures '0' <= c <= '9'
  {
    (48 + d) as char
  }

  /** Lower-case hexadecimal digit, as Python's `format(n, 'x')` writes it. */
  function HexDigit(d: nat): (c: char)
    requires d < 16
    ensures ' ' <= c <= '~'
  {
    if d < 10 then DigitChar(d) else (87 + d) as char
  }

  lemma HexDigitInjective(a: nat, b: nat)
    requires a < 16 && b < 16 && HexDigit(a) == HexDigit(b)
    ensures a == b
  {
  }

  /** `'{0:04x}'.format(n)`. */
  function Hex4(n: nat): string
    requires n < 0x10000
  {
    [HexDigit(n / 16 / 16 / 16), HexDigit(n / 16 / 16 % 16), HexDigit(n / 16 % 16), HexDigit(n % 16)]
  }

  /** A number is fixed by its last hexadecimal digit and the rest. */
  lemma DivModUnique(a: nat, b: nat)
    requires a / 16 == b / 16 && a % 16 == b % 16
    ensures a == b
  {
    assert a == a / 16 * 16 + a % 16;
    assert b == b / 16 * 16 + b % 16;
  }

  lemma Hex4Injective(a: nat, b: nat)
    requires a < 0x10000 && b < 0x10000 && Hex4(a) == Hex4(b)
    ensures a == b
  {
    assert Hex4(a)[0] == Hex4(b)[0] && Hex4(a)[1] == Hex4(b)[1];
    assert Hex4(a)[2] == Hex4(b)[2] && Hex4(a)[3] == Hex4(b)[3];
    HexDigitInjective(a / 16 / 16 / 16, b / 16 / 16 / 16);
    HexDigitInjective(a / 16 / 16 % 16, b / 16 / 16 % 16);
    HexDigitInjective(a / 16 % 16, b / 16 % 16);
    HexDigitInjective(a % 16, b % 16);
    DivModUnique(a / 16 / 16, b / 16 / 16);
    DivModUnique(a / 16, b / 16);
    DivModUnique(a, b);
  }

  predicate IsPrintableAscii(c: char) {
    ' ' <= c <= '~'
  }

  /** Text made of printable ASCII characters only. */
  predicate AsciiText(s: string) {
    forall i :: 0 <= i < |s| ==> IsPrintableAscii(s[i])
  }

  /** The text json.dumps (with `ensure_ascii`) writes for one character of a
      string: the quote, the backslash and five control characters get a
      short escape, other printable ASCII stays, and every other character
      becomes `\uXXXX` (a surrogate pair above U+FFFF). */
  function EscapeChar(c: char): (r: string)
    ensures |r| > 0 && r[0] != '"'
    ensures AsciiText(r)
  {
    if c == '"' then "\\\""
    else if c == '\\' then "\\\\"
    else if c == '\n' then "\\n"
    else if c == '\r' then "\\r"
    else if c == '\t' then "\\t"
    else if c == '\U{8}' then "\\b"
    else if c == '\U{C}' then "\\f"
    else if IsPrintableAscii(c) then [c]
    else if (c as int) < 0x10000 then "\\u" + Hex4(c as int)
    else
      var n := c as int - 0x10000;
      "\\u" + Hex4(0xD800 + n / 0x400) + "\\u" + Hex4(0xDC00 + n % 0x400)
  }

  function Escape(s: string): (r: string)
    ensures AsciiText(r)
  {
    if s == [] then "" else EscapeChar(s[0]) + Escape(s[1..])
  }

  /** A string as a JSON string literal. */
  function Quote(s: string): string {
    "\"" + Escape(s) + "\""
  }

  // ---------------------------------------------------------------------------
  // Numbers

  function NatText(n: nat): (r: string)
    ensures forall i :: 0 <= i < |r| ==> '0' <= r[i] <= '9'
    decreases n
  {
    if n < 10 then [DigitChar(n)] else NatText(n / 10) + [DigitChar(n % 10)]
  }

  function FractionText(f: real, budget: nat): (r: string)
    requires 0.0 <= f < 1.0
    ensures forall i :: 0 <= i < |r| ==> '0' <= r[i] <= '9'
    decreases budget
  {
    if budget == 0 || f == 0.0 then ""
    else
      var d := (f * 10.0).Floor;
      [DigitChar(d)] + FractionText(f * 10.0 - d as real, budget - 1)
  }

  /** Decimal text of a number: sign, integer part, `.`, at most 17 fraction
      digits (at least one). It agrees with Python's float `repr` on the
      short decimals the layout rules use (1.0, 0.75, 12.0). */
  function NumberText(n: real): (r: string)
    ensures |r| > 0 && AsciiText(r)
  {
    var m := if n < 0.0 then -n else n;
    var whole := m.Floor;
    var frac := FractionText(m - whole as real, 17);
    (if n < 0.0 then "-" else "") + NatText(whole) + "." + (if frac == "" then "0" else frac)
  }

  // ---------------------------------------------------------------------------
  // Serialisation

  /** `sep.join(parts)`. */
  function Join(parts: seq<string>, sep: string): (r: string)
    ensures (forall i :: 0 <= i < |parts| ==> AsciiText(parts[i])) && AsciiText(sep) ==> AsciiText(r)
  {
    if |parts| == 0 then ""
    else if |parts| == 1 then parts[0]
    else parts[0] + sep + Join(parts[1..], sep)
  }

  /** `json.dumps(j, sort_keys=True, separators=sep)`. */
  function Dumps(j: Json, sep: Separators): (r: string)
    ensures AsciiText(sep.item) && AsciiText(sep.key) ==> AsciiText(r)
    decreases j, 1, 0
  {
    match j
    case JNull => "null"
    case JBool(b) => if b then "true" else "false"
    case JNum(n) => NumberText(n)
    case JStr(s) => Quote(s)
    case JArr(items) => "[" + Join(ItemTexts(items, sep, 0), sep.item) + "]"
    case JObj(ms) =>
      SortStringsMembers(Keys(ms));
      "{" + Join(MemberTexts(ms, SortStrings(Keys(ms)), sep), sep.item) + "}"
  }

  /** The texts of `items[k..]`. */
  function ItemTexts(items: seq<Json>, sep: Separators, k: nat): (r: seq<string>)
    requires k <= |items|
    ensures |r| == |items| - k
    ensures AsciiText(sep.item) && AsciiText(sep.key) ==> forall i :: 0 <= i < |r| ==> AsciiText(r[i])
    decreases JArr(items), 0, |items| - k
  {
    if k == |items| then [] else [Dumps(items[k], sep)] + ItemTexts(items, sep, k + 1)
  }

  /** The `"key":value` texts of the members named by `keys`, in that order. */
  function MemberTexts(ms: seq<(string, Json)>, keys: seq<string>, sep: Separators): (r: seq<string>)
    requires forall key :: key in keys ==> key in Keys(ms)
    ensures |r| == |keys|
    ensures AsciiText(sep.item) && AsciiText(sep.key) ==> forall i :: 0 <= i < |r| ==> AsciiText(r[i])
    decreases JObj(ms), 0, 1
  {
    seq(|keys|, i requires 0 <= i < |keys| => MemberText(ms, keys[i], sep))
  }

  /** The `"key":value` text of the member named `key`. */
  function MemberText(ms: seq<(string, Json)>, key: string, sep: Separators): (r: string)
    requires key in Keys(ms)
    ensures AsciiText(sep.item) && AsciiText(sep.key) ==> AsciiText(r)
    decreases JObj(ms), 0, 0
  {
    Quote(key) + sep.key + Dumps(ms[IndexOf(ms, key)].1, sep)
  }

  // ---------------------------------------------------------------------------
  // Reading an escaped string back: the inverse of Escape

  function HexValue(c: char): (r: Option<nat>)
    ensures r.Some? ==> r.value < 16
  {
    if '0' <= c <= '9' then Some(c as int - 48)
    else if 'a' <= c <= 'f' then Some(c as int - 87)
    else None
  }

  function Hex4Value(s: string): (r: Option<nat>)
    requires |s| == 4
    ensures r.Some? ==> r.value < 0x10000
  {
    match (HexValue(s[0]), HexValue(s[1]), HexValue(s[2]), HexValue(s[3]))
    case (Some(a), Some(b), Some(c), Some(d)) =>
      assert (a * 16 + b) * 16 + c < 0x1000;
      Some(((a * 16 + b) * 16 + c) * 16 + d)
    case _ => None
  }

  lemma Hex4RoundTrip(n: nat)
    requires n < 0x10000
    ensures Hex4Value(Hex4(n)) == Some(n)
  {
    var h := Hex4(n);
    HexValueOfDigit(n / 16 / 16 / 16);
    HexValueOfDigit(n / 16 / 16 % 16);
    HexValueOfDigit(n / 16 % 16);
    HexValueOfDigit(n % 16);
    Hex4Digits(n);
  }

  lemma HexValueOfDigit(d: nat)
    requires d < 16
    ensures HexValue(HexDigit(d)) == Some(d)
  {
  }

  /** The four hexadecimal digits of `n` make up `n`. */
  lemma Hex4Digits(n: nat)
    requires n < 0x10000
    ensures ((n / 16 / 16 / 16 * 16 + n / 16 / 16 % 16) * 16 + n / 16 % 16) * 16 + n % 16 == n
  {
    var a := n / 16;
    var b := a / 16;
    assert b / 16 * 16 + b % 16 == b;
    assert a / 16 * 16 + a % 16 == a;
    assert n / 16 * 16 + n % 16 == n;
  }

  /** Reads one (possibly escaped) character from the front of `s`: the
      character and the number of text characters it took. */
  function DecodeChar(s: string): (r: Option<(char, nat)>)
    ensures r.Some? ==> 0 < r.value.1 <= |s|
  {
    if |s| == 0 then None
    else if s[0] != '\\' then Some((s[0], 1))
    else if |s| < 2 then None
    else if s[1] == '"' then Some(('"', 2))
    else if s[1] == '\\' then Some(('\\', 2))
    else if s[1] == 'n' then Some(('\n', 2))
    else if s[1] == 'r' then Some(('\r', 2))
    else if s[1] == 't' then Some(('\t', 2))
    else if s[1] == 'b' then Some(('\U{8}', 2))
    else if s[1] == 'f' then Some(('\U{C}', 2))
    else if s[1] != 'u' || |s| < 6 then None
    else match Hex4Value(s[2..6])
      case None => None
      case Some(h) =>
        if h < 0xD800 || 0xE000 <= h then Some((h as char, 6))
        else if 0xDC00 <= h || |s| < 12 || s[6..8] != "\\u" then None
        else match Hex4Value(s[8..12])
          case None => None
          case Some(l) =>
            if 0xDC00 <= l < 0xE000 then
              assert (h - 0xD800) * 0x400 < 0x100000;
              Some(((0x10000 + (h - 0xD800) * 0x400 + (l - 0xDC00)) as char, 12))
            else None
  }

  /** Reads escaped characters up to the first unescaped `"`: the string read
      and the text after that quote. */
  function Unescape(s: string): Option<(string, string)>
    decreases |s|
  {
    if |s| == 0 then None
    else if s[0] == '"' then Some(("", s[1..]))
    else match DecodeChar(s)
      case None => None
      case Some((c, n)) =>
        match Unescape(s[n..])
        case None => None
        case Some((t, rest)) => Some(([c] + t, rest))
  }

  lemma DecodeEscapedBmp(c: char, x: string)
    requires !IsPrintableAscii(c) && c !in "\"\\\n\r\t\U{8}\U{C}" && (c as int) < 0x10000
    ensures DecodeChar(EscapeChar(c) + x) == Some((c, |EscapeChar(c)|))
  {
    var s := EscapeChar(c) + x;
    assert EscapeChar(c) == "\\u" + Hex4(c as int);
    assert s[2..6] == Hex4(c as int);
    Hex4RoundTrip(c as int);
  }

  lemma DecodeEscapedAstral(c: char, x: string)
    requires 0x10000 <= c as int
    ensures DecodeChar(EscapeChar(c) + x) == Some((c, |EscapeChar(c)|))
  {
    var n := c as int - 0x10000;
    var hi, lo := 0xD800 + n / 0x400, 0xDC00 + n % 0x400;
    EscapeAstral(c);
    DecodeSurrogatePair(hi, lo, x);
    assert n / 0x400 * 0x400 + n % 0x400 == n;
  }

  lemma EscapeAstral(c: char)
    requires 0x10000 <= c as int
    ensures var n := c as int - 0x10000;
      EscapeChar(c) == "\\u" + Hex4(0xD800 + n / 0x400) + "\\u" + Hex4(0xDC00 + n % 0x400)
  {
    assert !IsPrintableAscii(c);
  }

  /** A high and a low surrogate, each escaped, are read as one character. */
  lemma DecodeSurrogatePair(hi: nat, lo: nat, x: string)
    requires 0xD800 <= hi < 0xDC00 && 0xDC00 <= lo < 0xE000
    ensures (hi - 0xD800) * 0x400 < 0x100000
    ensures DecodeChar("\\u" + Hex4(hi) + "\\u" + Hex4(lo) + x)
              == Some(((0x10000 + (hi - 0xD800) * 0x400 + (lo - 0xDC00)) as char, 12))
  {
    SurrogateSlices(Hex4(hi), Hex4(lo), x);
    Hex4RoundTrip(hi);
    Hex4RoundTrip(lo);
  }

  /** Where the parts of a surrogate pair escape sit in the text. */
  lemma SurrogateSlices(h: string, l: string, x: string)
    requires |h| == 4 && |l| == 4
    ensures var s := "\\u" + h + "\\u" + l + x;
      |s| >= 12 && s[0] == '\\' && s[1] == 'u' && s[2..6] == h && s[6..8] == "\\u" && s[8..12] == l
  {
  }

  /** Every escape is read back as the character it was written for, and
      nothing more of the text is consumed. */
  lemma DecodeEscapeChar(c: char, x: string)
    ensures DecodeChar(EscapeChar(c) + x) == Some((c, |EscapeChar(c)|))
  {
    if IsPrintableAscii(c) || c in "\"\\\n\r\t\U{8}\U{C}" {
    } else if (c as int) < 0x10000 {
      DecodeEscapedBmp(c, x);
    } else {
      DecodeEscapedAstral(c, x);
    }
  }

  /** Unescape inverts Escape: the body of a string literal is read back
      exactly, and reading stops at its closing quote. */
  lemma {:induction false} UnescapeEscape(a: string, x: string)
    ensures Unescape(Escape(a) + "\"" + x) == Some((a, x))
    decreases |a|
  {
    if a == [] {
      assert Escape(a) + "\"" + x == "\"" + x;
    } else {
      var rest := Escape(a[1..]) + "\"" + x;
      EscapeFirst(a, x);
      UnescapeEscape(a[1..], x);
      UnescapeStep(a[0], rest);
      assert [a[0]] + a[1..] == a;
    }
  }

  lemma EscapeFirst(a: string, x: string)
    requires a != []
    ensures Escape(a) + "\"" + x == EscapeChar(a[0]) + (Escape(a[1..]) + "\"" + x)
  {
  }

  /** Reading an escaped character, then the rest. */
  lemma UnescapeStep(c: char, rest: string)
    requires Unescape(rest).Some?
    ensures Unescape(EscapeChar(c) + rest) == Some(([c] + Unescape(rest).value.0, Unescape(rest).value.1))
  {
    var e := EscapeChar(c);
    DecodeEscapeChar(c, rest);
    assert (e + rest)[|e|..] == rest;
  }

  lemma QuoteTail(a: string, x: string)
    ensures (Quote(a) + x)[1..] == Escape(a) + "\"" + x
  {
    var e := Escape(a);
    assert Quote(a) + x == ['"'] + (e + "\"" + x);
  }

  /** A string literal is never a proper prefix of another: two texts that
      both start with a string literal agree on the literal and on the rest. */
  lemma QuoteUnique(a: string, b: string, x: string, y: string)
    requires Quote(a) + x == Quote(b) + y
    ensures a == b && x == y
  {
    QuoteTail(a, x);
    QuoteTail(b, y);
    UnescapeEscape(a, x);
    UnescapeEscape(b, y);
  }

  // ---------------------------------------------------------------------------
  // Key order does not matter

  /** Permuting the members of a dict does not change any lookup. */
  lemma GetPermutation(ms1: seq<(string, Json)>, ms2: seq<(string, Json)>, key: string)
    requires DistinctKeys(ms1) && DistinctKeys(ms2)
    requires multiset(ms1) == multiset(ms2)
    ensures Get(ms1, key) == Get(ms2, key)
  {
    if key in Keys(ms1) {
      GetFound(ms1, ms2, key);
    } else if key in Keys(ms2) {
      GetFound(ms2, ms1, key);
    }
  }

  lemma GetFound(ms1: seq<(string, Json)>, ms2: seq<(string, Json)>, key: string)
    requires DistinctKeys(ms1) && DistinctKeys(ms2)
    requires multiset(ms1) == multiset(ms2)
    requires key in Keys(ms1)
    ensures Get(ms1, key) == Get(ms2, key)
  {
    var i := IndexOf(ms1, key);
    assert ms1[i] in multiset(ms2);
    var j :| 0 <= j < |ms2| && ms2[j] == ms1[i];
    IndexOfDistinct(ms2, j);
  }

  /** Member texts over the same key list agree when the two dicts agree on
      every listed key. */
  lemma MemberTextsCongruent(ms1: seq<(string, Json)>, ms2: seq<(string, Json)>, keys: seq<string>, sep: Separators)
    requires forall key :: key in keys ==> key in Keys(ms1) && key in Keys(ms2)
    requires forall key :: key in keys ==> Get(ms1, key) == Get(ms2, key)
    ensures MemberTexts(ms1, keys, sep) == MemberTexts(ms2, keys, sep)
  {
    forall i | 0 <= i < |keys|
      ensures MemberTexts(ms1, keys, sep)[i] == MemberTexts(ms2, keys, sep)[i]
    {
      assert Get(ms1, keys[i]) == Get(ms2, keys[i]);
    }
  }

  /** sort_keys=True: two dicts holding the same key/value pairs serialise
      to the same text, whatever order their keys were inserted in. */
  lemma KeyOrderIndependent(ms1: seq<(string, Json)>, ms2: seq<(string, Json)>, sep: Separators)
    requires DistinctKeys(ms1) && DistinctKeys(ms2)
    requires multiset(ms1) == multiset(ms2)
    ensures Dumps(JObj(ms1), sep) == Dumps(JObj(ms2), sep)
  {
    MapPermutation(KeyOf, ms1, ms2);
    SortPermutationInvariant(Keys(ms1), Keys(ms2));
    var keys := SortStrings(Keys(ms1));
    SortStringsMembers(Keys(ms1));
    SortStringsMembers(Keys(ms2));
    forall key | key in keys
      ensures Get(ms1, key) == Get(ms2, key)
    {
      GetPermutation(ms1, ms2, key);
    }
    MemberTextsCongruent(ms1, ms2, keys, sep);
    assert SortStrings(Keys(ms2)) == keys;
    DumpsObject(ms1, sep);
    DumpsObject(ms2, sep);
  }

  lemma DumpsObject(ms: seq<(string, Json)>, sep: Separators)
    ensures forall key :: key in SortStrings(Keys(ms)) ==> key in Keys(ms)
    ensures Dumps(JObj(ms), sep) == "{" + Join(MemberTexts(ms, SortStrings(Keys(ms)), sep), sep.item) + "}"
  {
    SortStringsMembers(Keys(ms));
  }

  /** Dicts with the same key list find every key at the same position. */
  lemma IndexOfSameKeys(ms1: seq<(string, Json)>, ms2: seq<(string, Json)>, key: string)
    requires Keys(ms1) == Keys(ms2) && key in Keys(ms1)
    ensures IndexOf(ms1, key) == IndexOf(ms2, key)
  {
    var i1, i2 := IndexOf(ms1, key), IndexOf(ms2, key);
    assert Keys(ms1)[i1] == key && Keys(ms2)[i2] == key;
  }

  lemma MemberTextsValuesCongruent(ms1: seq<(string, Json)>, ms2: seq<(string, Json)>, keys: seq<string>, sep: Separators)
    requires Keys(ms1) == Keys(ms2)
    requires forall key :: key in keys ==> key in Keys(ms1)
    requires forall i :: 0 <= i < |ms1| ==> Dumps(ms1[i].1, sep) == Dumps(ms2[i].1, sep)
    ensures MemberTexts(ms1, keys, sep) == MemberTexts(ms2, keys, sep)
  {
    forall i | 0 <= i < |keys|
      ensures MemberTexts(ms1, keys, sep)[i] == MemberTexts(ms2, keys, sep)[i]
    {
      IndexOfSameKeys(ms1, ms2, keys[i]);
    }
  }

  /** Dicts with the same keys in the same order whose values serialise
      alike serialise alike. */
  lemma ValuesCongruent(ms1: seq<(string, Json)>, ms2: seq<(string, Json)>, sep: Separators)
    requires Keys(ms1) == Keys(ms2)
    requires forall i :: 0 <= i < |ms1| ==> Dumps(ms1[i].1, sep) == Dumps(ms2[i].1, sep)
    ensures Dumps(JObj(ms1), sep) == Dumps(JObj(ms2), sep)
  {
    SortStringsMembers(Keys(ms1));
    MemberTextsValuesCongruent(ms1, ms2, SortStrings(Keys(ms1)), sep);
  }

  // ---------------------------------------------------------------------------
  // Changed strings and reordered lists change the text

  /** The text before one part of a join: the earlier parts and a separator. */
  function JoinHead(pre: seq<string>, sep: string): string {
    if pre == [] then "" else Join(pre, sep) + sep
  }

  /** The text after one part of a join: a separator and the later parts. */
  function JoinTail(post: seq<string>, sep: string): string {
    if post == [] then "" else sep + Join(post, sep)
  }

  lemma {:induction false} JoinSplit(pre: seq<string>, t: string, post: seq<string>, sep: string)
    ensures Join(pre + [t] + post, sep) == JoinHead(pre, sep) + t + JoinTail(post, sep)
    decreases |pre|
  {
    if pre == [] {
      JoinFirst([], t, post, sep);
    } else {
      JoinFirst(pre, t, post, sep);
      JoinSplit(pre[1..], t, post, sep);
      JoinHeadFirst(pre, sep);
      Regroup(pre[0] + sep, JoinHead(pre[1..], sep), t, JoinTail(post, sep), "");
    }
  }

  /** The first part of a join and the rest of it. */
  lemma JoinFirst(pre: seq<string>, t: string, post: seq<string>, sep: string)
    ensures pre == [] ==> Join(pre + [t] + post, sep) == t + JoinTail(post, sep)
    ensures pre != [] ==> Join(pre + [t] + post, sep) == pre[0] + sep + Join(pre[1..] + [t] + post, sep)
  {
    var l := pre + [t] + post;
    assert l[0] == if pre == [] then t else pre[0];
    if pre == [] {
      assert l[1..] == post;
    } else {
      assert l[1..] == pre[1..] + [t] + post;
    }
  }

  lemma JoinHeadFirst(pre: seq<string>, sep: string)
    requires pre != []
    ensures JoinHead(pre, sep) == pre[0] + sep + JoinHead(pre[1..], sep)
  {
    if |pre| > 1 {
      var j := Join(pre[1..], sep);
      assert pre[0] + sep + j + sep == pre[0] + sep + (j + sep);
    }
  }

  /** Concatenation regrouped. */
  lemma Regroup(a: string, b: string, c: string, d: string, e: string)
    ensures a + (b + c + d) + e == (a + b) + c + (d + e)
  {
  }

  lemma {:induction false} ItemTextsAt(items: seq<Json>, sep: Separators, k: nat, i: nat)
    requires k <= i < |items|
    ensures ItemTexts(items, sep, k)[i - k] == Dumps(items[i], sep)
    decreases i - k
  {
    if k < i {
      ItemTextsAt(items, sep, k + 1, i);
    }
  }

  lemma PrefixCancel(h: string, u: string, v: string)
    requires h + u == h + v
    ensures u == v
  {
    assert u == (h + u)[|h|..];
    assert v == (h + v)[|h|..];
  }

  lemma JoinAt(l: seq<string>, p: nat, sep: string)
    requires p < |l|
    ensures Join(l, sep) == JoinHead(l[..p], sep) + l[p] + JoinTail(l[p + 1..], sep)
  {
    SpliceBack(l, p);
    JoinSplit(l[..p], l[p], l[p + 1..], sep);
  }

  /** A join seen from one of its parts, inside surrounding text. */
  lemma JoinAround(l: seq<string>, p: nat, sep: string, t0: string, t2: string)
    requires p < |l|
    ensures t0 + Join(l, sep) + t2 == (t0 + JoinHead(l[..p], sep)) + l[p] + (JoinTail(l[p + 1..], sep) + t2)
  {
    JoinAt(l, p, sep);
    Regroup(t0, JoinHead(l[..p], sep), l[p], JoinTail(l[p + 1..], sep), t2);
  }

  /** A string, a boolean or null: a value whose text is never a proper
      prefix of another such value's text. */
  predicate Scalar(j: Json) {
    j.JStr? || j.JBool? || j.JNull?
  }

  /** The first character of a scalar's text tells its kind, and for a
      boolean its value. */
  function ScalarHead(j: Json): char
    requires Scalar(j)
  {
    match j
    case JStr(_) => '"'
    case JBool(b) => if b then 't' else 'f'
    case JNull => 'n'
  }

  lemma ScalarHeadOf(j: Json, sep: Separators, r: string)
    requires Scalar(j)
    ensures |Dumps(j, sep) + r| > 0 && (Dumps(j, sep) + r)[0] == ScalarHead(j)
  {
  }

  /** Two texts that start with scalar values agree on the value. */
  lemma ScalarTextUnique(v1: Json, v2: Json, sep: Separators, r1: string, r2: string)
    requires Scalar(v1) && Scalar(v2)
    requires Dumps(v1, sep) + r1 == Dumps(v2, sep) + r2
    ensures v1 == v2
  {
    if v1.JStr? && v2.JStr? {
      QuoteUnique(v1.s, v2.s, r1, r2);
    } else {
      ScalarHeadOf(v1, sep, r1);
      ScalarHeadOf(v2, sep, r2);
    }
  }

  lemma Concat4(h: string, t: string, q: string, r: string)
    ensures h + (t + q) + r == (h + t) + q + r
  {
  }

  lemma ScalarSensitive(h: string, v1: Json, v2: Json, sep: Separators, r1: string, r2: string)
    requires Scalar(v1) && Scalar(v2) && v1 != v2
    ensures h + Dumps(v1, sep) + r1 != h + Dumps(v2, sep) + r2
  {
    var d1, d2 := Dumps(v1, sep), Dumps(v2, sep);
    assert h + d1 + r1 == h + (d1 + r1);
    assert h + d2 + r2 == h + (d2 + r2);
    if h + (d1 + r1) == h + (d2 + r2) {
      PrefixCancel(h, d1 + r1, d2 + r2);
      ScalarTextUnique(v1, v2, sep, r1, r2);
    }
  }

  /** Two joins that share all parts before position `p`, and whose parts at
      `p` end in different scalar values after a common text, differ. */
  lemma JoinScalarSensitive(l1: seq<string>, l2: seq<string>, p: nat, v1: Json, v2: Json, sep: Separators,
                            t0: string, t1: string, t2: string, itemSep: string)
    requires p < |l1| && p < |l2| && l1[..p] == l2[..p]
    requires Scalar(v1) && Scalar(v2) && v1 != v2
    requires l1[p] == t1 + Dumps(v1, sep) && l2[p] == t1 + Dumps(v2, sep)
    ensures t0 + Join(l1, itemSep) + t2 != t0 + Join(l2, itemSep) + t2
  {
    JoinAround(l1, p, itemSep, t0, t2);
    JoinAround(l2, p, itemSep, t0, t2);
    var h := t0 + JoinHead(l1[..p], itemSep);
    var r1 := JoinTail(l1[p + 1..], itemSep) + t2;
    var r2 := JoinTail(l2[p + 1..], itemSep) + t2;
    assert t0 + Join(l1, itemSep) + t2 == h + l1[p] + r1;
    assert t0 + Join(l2, itemSep) + t2 == h + l2[p] + r2;
    Concat4(h, t1, Dumps(v1, sep), r1);
    Concat4(h, t1, Dumps(v2, sep), r2);
    ScalarSensitive(h + t1, v1, v2, sep, r1, r2);
  }

  /** Position of the first occurrence of `k` in `keys`. */
  function Position(keys: seq<string>, k: string): (p: nat)
    requires k in keys
    ensures p < |keys| && keys[p] == k
    ensures forall q :: 0 <= q < p ==> keys[q] != k
  {
    if keys[0] == k then 0 else Position(keys[1..], k) + 1
  }

  /** The first position where two lists of equal length differ. */
  function FirstDifference(l1: seq<string>, l2: seq<string>): (p: nat)
    requires |l1| == |l2| && l1 != l2
    ensures p < |l1| && l1[..p] == l2[..p] && l1[p] != l2[p]
  {
    if l1[0] != l2[0] then 0
    else
      assert l1 == [l1[0]] + l1[1..] && l2 == [l2[0]] + l2[1..];
      var p := FirstDifference(l1[1..], l2[1..]);
      assert l1[..p + 1] == [l1[0]] + l1[1..][..p];
      assert l2[..p + 1] == [l2[0]] + l2[1..][..p];
      p + 1
  }

  /** Changing one string in a list changes the serialised list (the
      elements before it being the same). */
  lemma ArrayStringSensitive(items1: seq<Json>, items2: seq<Json>, p: nat, a: string, b: string, sep: Separators)
    requires p < |items1| && p < |items2| && items1[..p] == items2[..p]
    requires items1[p] == JStr(a) && items2[p] == JStr(b) && a != b
    ensures Dumps(JArr(items1), sep) != Dumps(JArr(items2), sep)
  {
    var l1, l2 := ItemTexts(items1, sep, 0), ItemTexts(items2, sep, 0);
    forall q | 0 <= q <= p
      ensures l1[q] == Dumps(items1[q], sep) && l2[q] == Dumps(items2[q], sep)
    {
      ItemTextsAt(items1, sep, 0, q);
      ItemTextsAt(items2, sep, 0, q);
    }
    assert forall q :: 0 <= q < p ==> items1[q] == items1[..p][q];
    assert l1[..p] == l2[..p];
    assert l1[p] == "" + Dumps(items1[p], sep) && l2[p] == "" + Dumps(items2[p], sep);
    JoinScalarSensitive(l1, l2, p, items1[p], items2[p], sep, "[", "", "]", sep.item);
  }

  lemma MiddleCancel(h: string, u: string, v: string, r: string)
    requires h + u + r == h + v + r
    ensures u == v
  {
    assert |u| == |v|;
    assert u == (h + u + r)[|h|..|h| + |u|];
    assert v == (h + v + r)[|h|..|h| + |v|];
  }

  /** Two lists that differ in one element only, whose texts differ,
      serialise differently. */
  lemma ArrayElementSensitive(items1: seq<Json>, items2: seq<Json>, p: nat, sep: Separators)
    requires |items1| == |items2| && p < |items1|
    requires forall q :: 0 <= q < |items1| && q != p ==> items1[q] == items2[q]
    requires Dumps(items1[p], sep) != Dumps(items2[p], sep)
    ensures Dumps(JArr(items1), sep) != Dumps(JArr(items2), sep)
  {
    var l1, l2 := ItemTexts(items1, sep, 0), ItemTexts(items2, sep, 0);
    forall q | 0 <= q < |items1|
      ensures l1[q] == Dumps(items1[q], sep) && l2[q] == Dumps(items2[q], sep)
    {
      ItemTextsAt(items1, sep, 0, q);
      ItemTextsAt(items2, sep, 0, q);
    }
    assert l1[..p] == l2[..p];
    assert l1[p + 1..] == l2[p + 1..];
    JoinAround(l1, p, sep.item, "[", "]");
    JoinAround(l2, p, sep.item, "[", "]");
    var h := "[" + JoinHead(l1[..p], sep.item);
    var r := JoinTail(l1[p + 1..], sep.item) + "]";
    if "[" + Join(l1, sep.item) + "]" == "[" + Join(l2, sep.item) + "]" {
      MiddleCancel(h, l1[p], l2[p], r);
    }
  }

  /** List order is kept, not normalised: exchanging two different strings
      of a list changes its serialisation. */
  lemma ArrayOrderSensitive(items: seq<Json>, i: nat, j: nat, sep: Separators)
    requires i < j < |items|
    requires items[i].JStr? && items[j].JStr? && items[i] != items[j]
    ensures Dumps(JArr(items), sep) != Dumps(JArr(items[i := items[j]][j := items[i]]), sep)
  {
    var swapped := items[i := items[j]][j := items[i]];
    assert items[..i] == swapped[..i];
    ArrayStringSensitive(items, swapped, i, items[i].s, items[j].s, sep);
  }

  /** The member text of `key` in two dicts with the same key list. */
  lemma MemberTextPair(ms1: seq<(string, Json)>, ms2: seq<(string, Json)>, keys: seq<string>, sep: Separators, q: nat)
    requires Keys(ms1) == Keys(ms2) && q < |keys|
    requires forall key :: key in keys ==> key in Keys(ms1)
    ensures IndexOf(ms1, keys[q]) == IndexOf(ms2, keys[q])
    ensures MemberTexts(ms1, keys, sep)[q] == Quote(keys[q]) + sep.key + Dumps(ms1[IndexOf(ms1, keys[q])].1, sep)
    ensures MemberTexts(ms2, keys, sep)[q] == Quote(keys[q]) + sep.key + Dumps(ms2[IndexOf(ms1, keys[q])].1, sep)
  {
    assert keys[q] in keys;
    IndexOfSameKeys(ms1, ms2, keys[q]);
  }

  /** Dicts with the same keys in the same order, whose values differ only in
      strings, booleans and nulls, serialise alike only when they are equal:
      every change of such a member shows in the text. */
  lemma ScalarObjectSensitive(ms1: seq<(string, Json)>, ms2: seq<(string, Json)>, sep: Separators)
    requires DistinctKeys(ms1) && Keys(ms1) == Keys(ms2)
    requires forall i :: 0 <= i < |ms1| ==> ms1[i].1 == ms2[i].1 || (Scalar(ms1[i].1) && Scalar(ms2[i].1))
    requires ms1 != ms2
    ensures Dumps(JObj(ms1), sep) != Dumps(JObj(ms2), sep)
  {
    var keys := SortStrings(Keys(ms1));
    SortStringsMembers(Keys(ms1));
    var l1, l2 := MemberTexts(ms1, keys, sep), MemberTexts(ms2, keys, sep);
    MemberTextsDiffer(ms1, ms2, keys, sep);
    // the first text that differs belongs to a member whose value differs
    var p := FirstDifference(l1, l2);
    MemberTextPair(ms1, ms2, keys, sep, p);
    var j := IndexOf(ms1, keys[p]);
    assert ms1[j].1 != ms2[j].1;
    JoinScalarSensitive(l1, l2, p, ms1[j].1, ms2[j].1, sep, "{", Quote(keys[p]) + sep.key, "}", sep.item);
  }

  /** Some member of the two dicts differs, and so does its text. */
  lemma MemberTextsDiffer(ms1: seq<(string, Json)>, ms2: seq<(string, Json)>, keys: seq<string>, sep: Separators)
    requires DistinctKeys(ms1) && Keys(ms1) == Keys(ms2)
    requires forall key :: key in keys <==> key in Keys(ms1)
    requires forall i :: 0 <= i < |ms1| ==> ms1[i].1 == ms2[i].1 || (Scalar(ms1[i].1) && Scalar(ms2[i].1))
    requires ms1 != ms2
    ensures MemberTexts(ms1, keys, sep) != MemberTexts(ms2, keys, sep)
  {
    var i :| 0 <= i < |ms1| && ms1[i] != ms2[i];
    assert ms1[i].0 == Keys(ms1)[i] == Keys(ms2)[i] == ms2[i].0;
    MemberTextAtDiffers(ms1, ms2, keys, sep, i);
  }

  /** The text of the `i`th member, where its scalar value differs. */
  lemma MemberTextAtDiffers(ms1: seq<(string, Json)>, ms2: seq<(string, Json)>, keys: seq<string>, sep: Separators, i: nat)
    requires DistinctKeys(ms1) && Keys(ms1) == Keys(ms2)
    requires forall key :: key in keys <==> key in Keys(ms1)
    requires i < |ms1| && ms1[i].0 == ms2[i].0
    requires Scalar(ms1[i].1) && Scalar(ms2[i].1) && ms1[i].1 != ms2[i].1
    ensures ms1[i].0 in keys
    ensures MemberTexts(ms1, keys, sep)[Position(keys, ms1[i].0)] != MemberTexts(ms2, keys, sep)[Position(keys, ms1[i].0)]
  {
    assert ms1[i].0 == Keys(ms1)[i];
    var q := Position(keys, ms1[i].0);
    MemberTextPair(ms1, ms2, keys, sep, q);
    IndexOfDistinct(ms1, i);
    var l1, l2 := MemberTexts(ms1, keys, sep), MemberTexts(ms2, keys, sep);
    ScalarSensitive(Quote(keys[q]) + sep.key, ms1[i].1, ms2[i].1, sep, "", "");
    assert l1[q] + "" == l1[q] && l2[q] + "" == l2[q];
  }
}
