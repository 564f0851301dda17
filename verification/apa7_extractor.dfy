/** Layout fact extraction (core/amanecer/apa7_layout/extractor.py): the
    eight layout values are read from `context["metadata"]["layout"]` and
    copied as they are, without conversion. The context is any JSON value;
    Python's `AttributeError` on a `.get` of something that is not a dict is
    the `Err` case, with the text `str(e)` would have. */
module Apa7Extractor {
  import opened Wrappers
  import opened Sorting
  import opened CanonicalJson

  /** LayoutFacts: every field is whatever value the layout held (None by
      default). */
  datatype LayoutFacts = LayoutFacts(
    marginTop: Json := JNull,
    marginBottom: Json := JNull,
    marginLeft: Json := JNull,
    marginRight: Json := JNull,
    fontName: Json := JNull,
    fontSize: Json := JNull,
    lineSpacing: Json := JNull,
    pageNumbering: Json := JNull)

  /** The eight field names of LayoutFacts. */
  datatype FactName =
    | MarginTop | MarginBottom | MarginLeft | MarginRight
    | FontName | FontSize | LineSpacing | PageNumbering
  {
    /** The field's name, which is also its key in the layout dict. */
    function Key(): (k: string)
      ensures |k| > 0
    {
      match this
      case MarginTop => "margin_top"
      case MarginBottom => "margin_bottom"
      case MarginLeft => "margin_left"
      case MarginRight => "margin_right"
      case FontName => "font_name"
      case FontSize => "font_size"
      case LineSpacing => "line_spacing"
      case PageNumbering => "page_numbering"
    }
  }

  const FactKeys: seq<string> := ["margin_top", "margin_bottom", "margin_left", "margin_right",
                                  "font_name", "font_size", "line_spacing", "page_numbering"]

  lemma KeyListed(n: FactName)
    ensures n.Key() in FactKeys
  {
  }

  /** `getattr(facts, name)`. */
  function Fact(facts: LayoutFacts, n: FactName): Json {
    match n
    case MarginTop => facts.marginTop
    case MarginBottom => facts.marginBottom
    case MarginLeft => facts.marginLeft
    case MarginRight => facts.marginRight
    case FontName => facts.fontName
    case FontSize => facts.fontSize
    case LineSpacing => facts.lineSpacing
    case PageNumbering => facts.pageNumbering
  }

  /** Python's name for the type of a value (numbers are floats). */
  function TypeName(j: Json): (t: string)
    ensures |t| > 0
  {
    match j
    case JNull => "NoneType"
    case JBool(_) => "bool"
    case JNum(_) => "float"
    case JStr(_) => "str"
    case JArr(_) => "list"
    case JObj(_) => "dict"
  }

  /** The text of the AttributeError raised by `.get` on a value that is
      not a dict. */
  function NoGetError(j: Json): string {
    "'" + TypeName(j) + "' object has no attribute 'get'"
  }

  /** `d.get(key, default)`: fails unless `d` is a dict. */
  function GetOr(d: Json, key: string, default: Json): (r: Result<Json, string>)
    ensures r.Err? <==> !d.JObj?
    ensures r.Err? ==> r.error == NoGetError(d)
    ensures d.JObj? && key !in Keys(d.members) ==> r == Ok(default)
    ensures d.JObj? && key in Keys(d.members) ==> r == Ok(d.members[IndexOf(d.members, key)].1)
  {
    if !d.JObj? then Err(NoGetError(d))
    else match Get(d.members, key)
      case None => Ok(default)
      case Some(v) => Ok(v)
  }

  /** `layout.get(name)`: the value under `name`, or None. */
  function Field(layout: seq<(string, Json)>, name: string): (v: Json)
    ensures name in Keys(layout) ==> v == layout[IndexOf(layout, name)].1
    ensures name !in Keys(layout) ==> v == JNull
  {
    GetOr(JObj(layout), name, JNull).value
  }

  /** The facts read from a layout dict: each fact is the layout's value
      under the fact's own name. */
  function FactsOf(layout: seq<(string, Json)>): (facts: LayoutFacts)
    ensures forall n: FactName :: Fact(facts, n) == Field(layout, n.Key())
  {
    var facts := LayoutFacts(Field(layout, "margin_top"), Field(layout, "margin_bottom"),
                             Field(layout, "margin_left"), Field(layout, "margin_right"),
                             Field(layout, "font_name"), Field(layout, "font_size"),
                             Field(layout, "line_spacing"), Field(layout, "page_numbering"));
    FieldsNamed(layout, facts);
    facts
  }

  lemma FieldsNamed(layout: seq<(string, Json)>, facts: LayoutFacts)
    requires facts == LayoutFacts(Field(layout, "margin_top"), Field(layout, "margin_bottom"),
                                  Field(layout, "margin_left"), Field(layout, "margin_right"),
                                  Field(layout, "font_name"), Field(layout, "font_size"),
                                  Field(layout, "line_spacing"), Field(layout, "page_numbering"))
    ensures forall n: FactName :: Fact(facts, n) == Field(layout, n.Key())
  {
    forall n: FactName
      ensures Fact(facts, n) == Field(layout, n.Key())
    {
      match n {
        case MarginTop =>
        case MarginBottom =>
        case MarginLeft =>
        case MarginRight =>
        case FontName =>
        case FontSize =>
        case LineSpacing =>
        case PageNumbering =>
      }
    }
  }

  /** `context.get("metadata", {}).get("layout", {})`, as the members of
      the layout dict. */
  function LayoutOf(context: Json): (r: Result<seq<(string, Json)>, string>)
    ensures !context.JObj? ==> r == Err(NoGetError(context))
    ensures context.JObj? && "metadata" !in Keys(context.members) ==> r == Ok([])
    ensures context.JObj? && "metadata" in Keys(context.members) ==>
              var metadata := Get(context.members, "metadata").value;
              (!metadata.JObj? ==> r == Err(NoGetError(metadata))) &&
              (metadata.JObj? && "layout" !in Keys(metadata.members) ==> r == Ok([])) &&
              (metadata.JObj? && "layout" in Keys(metadata.members) ==>
                 var layout := Get(metadata.members, "layout").value;
                 r == if layout.JObj? then Ok(layout.members) else Err(NoGetError(layout)))
  {
    match GetOr(context, "metadata", JObj([]))
    case Err(e) => Err(e)
    case Ok(metadata) =>
      match GetOr(metadata, "layout", JObj([]))
      case Err(e) => Err(e)
      case Ok(layout) =>
        if layout.JObj? then Ok(layout.members)
        else Err(NoGetError(layout))
  }

  /** extract_layout_facts. */
  function ExtractLayoutFacts(context: Json): (r: Result<LayoutFacts, string>)
    ensures r.Err? <==> LayoutOf(context).Err?
    ensures r.Ok? ==> r.value == FactsOf(LayoutOf(context).value)
  {
    match LayoutOf(context)
    case Err(e) => Err(e)
    case Ok(layout) => Ok(FactsOf(layout))
  }

  /** The context the integration tests build: a document id and a layout
      under `metadata`. */
  function TestContext(layout: seq<(string, Json)>): (c: Json)
    ensures c.JObj? && DistinctKeys(c.members)
  {
    JObj([("document_id", JStr("test-doc")), ("metadata", JObj([("layout", JObj(layout))]))])
  }

  // ---------------------------------------------------------------------------
  // Properties of extraction

  /** Extraction from the tests' context reads the facts from the layout. */
  lemma ExtractTestContext(layout: seq<(string, Json)>)
    ensures ExtractLayoutFacts(TestContext(layout)) == Ok(FactsOf(layout))
  {
    var c := TestContext(layout);
    assert Keys(c.members)[1] == "metadata";
    IndexOfDistinct(c.members, 1);
    assert Keys(c.members[1].1.members)[0] == "layout";
  }

  lemma FieldAt(layout: seq<(string, Json)>, i: nat)
    requires DistinctKeys(layout) && i < |layout|
    ensures Field(layout, layout[i].0) == layout[i].1
  {
    IndexOfDistinct(layout, i);
  }

  /** A layout's value for a field is copied as it is. */
  lemma ValueCopied(layout: seq<(string, Json)>, i: nat)
    requires DistinctKeys(layout) && i < |layout|
    ensures ExtractLayoutFacts(TestContext(layout)) == Ok(FactsOf(layout))
    ensures forall n: FactName :: n.Key() == layout[i].0 ==> Fact(FactsOf(layout), n) == layout[i].1
  {
    ExtractTestContext(layout);
    FieldAt(layout, i);
  }

  /** The layout dict that holds every field of `facts` under its name. */
  function LayoutDictOf(facts: LayoutFacts): (layout: seq<(string, Json)>)
    ensures |layout| == 8 && DistinctKeys(layout)
    ensures forall i :: 0 <= i < 8 ==> layout[i].0 == FactKeys[i]
  {
    [("margin_top", facts.marginTop), ("margin_bottom", facts.marginBottom),
     ("margin_left", facts.marginLeft), ("margin_right", facts.marginRight),
     ("font_name", facts.fontName), ("font_size", facts.fontSize),
     ("line_spacing", facts.lineSpacing), ("page_numbering", facts.pageNumbering)]
  }

  /** Extraction reads back what the layout dict holds: a context built
      from the facts gives the same facts. */
  lemma ExtractRoundTrip(facts: LayoutFacts)
    ensures ExtractLayoutFacts(TestContext(LayoutDictOf(facts))) == Ok(facts)
  {
    ExtractTestContext(LayoutDictOf(facts));
    FactsOfDict(facts);
  }

  lemma FactsOfDict(facts: LayoutFacts)
    ensures FactsOf(LayoutDictOf(facts)) == facts
  {
    MarginsOfDict(facts);
    TypographyOfDict(facts);
  }

  lemma MarginsOfDict(facts: LayoutFacts)
    ensures var layout := LayoutDictOf(facts);
      Field(layout, "margin_top") == facts.marginTop && Field(layout, "margin_bottom") == facts.marginBottom &&
      Field(layout, "margin_left") == facts.marginLeft && Field(layout, "margin_right") == facts.marginRight
  {
    var layout := LayoutDictOf(facts);
    FieldAt(layout, 0);
    FieldAt(layout, 1);
    FieldAt(layout, 2);
    FieldAt(layout, 3);
  }

  lemma TypographyOfDict(facts: LayoutFacts)
    ensures var layout := LayoutDictOf(facts);
      Field(layout, "font_name") == facts.fontName && Field(layout, "font_size") == facts.fontSize &&
      Field(layout, "line_spacing") == facts.lineSpacing && Field(layout, "page_numbering") == facts.pageNumbering
  {
    var layout := LayoutDictOf(facts);
    FieldAt(layout, 4);
    FieldAt(layout, 5);
    FieldAt(layout, 6);
    FieldAt(layout, 7);
  }

  /** A field the layout does not hold is None. */
  lemma MissingFieldIsNull(layout: seq<(string, Json)>, n: FactName)
    requires n.Key() !in Keys(layout)
    ensures Fact(FactsOf(layout), n) == JNull
  {
  }

  /** Without metadata, or with a metadata dict that holds no layout,
      every fact is None. */
  lemma MissingLayoutAllNull(context: Json)
    requires context.JObj?
    requires var metadata := Get(context.members, "metadata");
             metadata.None? || (metadata.value.JObj? && "layout" !in Keys(metadata.value.members))
    ensures ExtractLayoutFacts(context) == Ok(LayoutFacts())
  {
    assert LayoutOf(context) == Ok([]);
  }

  /** In general: with a metadata dict holding a layout dict, each fact is
      that layout's value under the fact's name; a layout that is not a dict
      is an AttributeError. */
  lemma ExtractFromMetadata(context: Json, metadata: Json, layout: Json)
    requires context.JObj? && Get(context.members, "metadata") == Some(metadata)
    requires metadata.JObj? && Get(metadata.members, "layout") == Some(layout)
    ensures layout.JObj? ==> ExtractLayoutFacts(context) == Ok(FactsOf(layout.members))
    ensures !layout.JObj? ==> ExtractLayoutFacts(context) == Err(NoGetError(layout))
  {
  }

  /** Metadata that is not a dict is an AttributeError. */
  lemma NonDictMetadataFails(context: Json, metadata: Json)
    requires context.JObj? && Get(context.members, "metadata") == Some(metadata) && !metadata.JObj?
    ensures ExtractLayoutFacts(context) == Err(NoGetError(metadata))
  {
  }

  /** An empty layout dict gives facts that are all None. */
  lemma EmptyLayoutAllNull(layout: seq<(string, Json)>)
    requires |layout| == 0
    ensures ExtractLayoutFacts(TestContext(layout)) == Ok(LayoutFacts())
  {
    ExtractTestContext(layout);
  }

  /** The members of a layout dict whose keys are fact names, in order. */
  function FactMembers(layout: seq<(string, Json)>): (r: seq<(string, Json)>)
    ensures forall m :: m in r <==> m in layout && m.0 in FactKeys
  {
    if layout == [] then []
    else
      assert forall m :: m in layout <==> m == layout[0] || m in layout[1..];
      (if layout[0].0 in FactKeys then [layout[0]] else []) + FactMembers(layout[1..])
  }

  /** Keys other than the eight field names make no difference, wherever
      they stand in the dict: two layouts that hold the same fact members in
      the same order give the same facts. */
  lemma ExtraKeysIgnored(layout1: seq<(string, Json)>, layout2: seq<(string, Json)>)
    requires FactMembers(layout1) == FactMembers(layout2)
    ensures FactsOf(layout1) == FactsOf(layout2)
  {
    var facts1, facts2 := FactsOf(layout1), FactsOf(layout2);
    forall n: FactName
      ensures Fact(facts1, n) == Fact(facts2, n)
    {
      KeyListed(n);
      FieldOfFactMembers(layout1, n.Key());
      FieldOfFactMembers(layout2, n.Key());
    }
    FactsExtensional(facts1, facts2);
  }

  /** Facts that agree on every field are equal. */
  lemma FactsExtensional(facts1: LayoutFacts, facts2: LayoutFacts)
    requires forall n: FactName :: Fact(facts1, n) == Fact(facts2, n)
    ensures facts1 == facts2
  {
    assert Fact(facts1, MarginTop) == Fact(facts2, MarginTop);
    assert Fact(facts1, MarginBottom) == Fact(facts2, MarginBottom);
    assert Fact(facts1, MarginLeft) == Fact(facts2, MarginLeft);
    assert Fact(facts1, MarginRight) == Fact(facts2, MarginRight);
    assert Fact(facts1, FontName) == Fact(facts2, FontName);
    assert Fact(facts1, FontSize) == Fact(facts2, FontSize);
    assert Fact(facts1, LineSpacing) == Fact(facts2, LineSpacing);
    assert Fact(facts1, PageNumbering) == Fact(facts2, PageNumbering);
  }

  /** A fact name's field is read from the fact members alone. */
  lemma {:induction false} FieldOfFactMembers(layout: seq<(string, Json)>, name: string)
    requires name in FactKeys
    ensures Field(FactMembers(layout), name) == Field(layout, name)
    decreases |layout|
  {
    if layout != [] {
      FieldOfFactMembers(layout[1..], name);
      FieldCons(layout, name);
      var rest := FactMembers(layout[1..]);
      if layout[0].0 in FactKeys {
        assert FactMembers(layout) == [layout[0]] + rest;
        FieldCons([layout[0]] + rest, name);
        assert ([layout[0]] + rest)[1..] == rest;
      } else {
        assert FactMembers(layout) == rest;
      }
    }
  }

  /** `layout.get(name)` looks at the first member, then at the rest. */
  lemma FieldCons(layout: seq<(string, Json)>, name: string)
    requires |layout| > 0
    ensures Field(layout, name) == if layout[0].0 == name then layout[0].1 else Field(layout[1..], name)
  {
    assert Keys(layout)[0] == layout[0].0;
    if layout[0].0 != name {
      if name in Keys(layout) {
        var i := IndexOf(layout, name);
        assert Keys(layout[1..])[i - 1] == name;
      }
    }
  }

  /** A context that is not a dict is an AttributeError. */
  lemma NonDictContextFails(context: Json)
    requires !context.JObj?
    ensures ExtractLayoutFacts(context) == Err("'" + TypeName(context) + "' object has no attribute 'get'")
  {
  }
}
