/** APA7 layout validation (core/amanecer/apa7_layout/validator.py): every
    rule of the table is evaluated against the extracted facts, giving one
    verdict per rule, each with a single piece of evidence. Facts are
    arbitrary values, so Python's behaviour on each kind of value is
    modelled: an operation that would raise (a string margin in `abs`, a
    list font name in a dict lookup) is the `Err` case, carrying the text of
    the exception. */
module Apa7Validator {
  import opened Wrappers
  import opened Sorting
  import opened CanonicalJson
  import opened Hashes
  import opened Apa7Rules
  import opened Apa7Extractor

  datatype Evidence = Evidence(ruleCode: RuleCode, factName: string, expectedValue: Json, actualValue: Json, matched: bool)
  {
    function ToDict(): (d: Json)
      ensures d.JObj? && DistinctKeys(d.members)
      ensures Keys(d.members) == ["rule_code", "fact_name", "expected_value", "actual_value", "match"]
      ensures d.members[0].1 == JStr(ruleCode.Text()) && d.members[1].1 == JStr(factName)
      ensures d.members[2].1 == expectedValue && d.members[3].1 == actualValue
      ensures d.members[4].1 == JBool(matched)
    {
      var ms := [("rule_code", JStr(ruleCode.Text())),
                 ("fact_name", JStr(factName)),
                 ("expected_value", expectedValue),
                 ("actual_value", actualValue),
                 ("match", JBool(matched))];
      assert Keys(ms) == ["rule_code", "fact_name", "expected_value", "actual_value", "match"];
      JObj(ms)
    }
  }

  function EvidenceDict(e: Evidence): Json {
    e.ToDict()
  }

  /** A verdict's result, written Pass or Fail. */
  datatype Outcome = Pass | Fail
  {
    function Text(): string {
      match this
      case Pass => "PASS"
      case Fail => "FAIL"
    }
  }

  datatype Verdict = Verdict(
    ruleCode: RuleCode,
    description: string,
    result: Outcome,
    severity: string,
    blocking: bool,
    evidence: seq<Evidence>)
  {
    /** to_dict: the five verdict fields and the list of evidence dicts. */
    function ToDict(): (d: Json)
      ensures d.JObj? && DistinctKeys(d.members)
      ensures Keys(d.members) == VerdictKeys
      ensures d.members[0].1 == JStr(ruleCode.Text()) && d.members[1].1 == JStr(description)
      ensures d.members[2].1 == JStr(result.Text()) && d.members[3].1 == JStr(severity)
      ensures d.members[4].1 == JBool(blocking)
      ensures d.members[5].1 == JArr(Map(EvidenceDict, evidence))
    {
      var ms := [("rule_code", JStr(ruleCode.Text())),
                 ("description", JStr(description)),
                 ("result", JStr(result.Text())),
                 ("severity", JStr(severity)),
                 ("blocking", JBool(blocking)),
                 ("evidence", JArr(Map(EvidenceDict, evidence)))];
      assert Keys(ms) == VerdictKeys;
      VerdictKeysDistinct();
      DistinctKeysFromKeys(ms);
      JObj(ms)
    }
  }

  /** The keys of a verdict dict, in to_dict's order. */
  const VerdictKeys: seq<string> := ["rule_code", "description", "result", "severity", "blocking", "evidence"]

  lemma VerdictKeysDistinct()
    ensures DistinctStrings(VerdictKeys)
  {
  }

  function VerdictDict(v: Verdict): Json {
    v.ToDict()
  }

  function PassFail(matched: bool): Outcome {
    if matched then Pass else Fail
  }

  /** The verdict of `rule` with one piece of evidence: the shape every
      evaluator builds. */
  function RuleVerdict(rule: Rule, factName: string, expected: Json, actual: Json, matched: bool): (v: Verdict)
    ensures FromRule(v, rule)
    ensures v.evidence[0] == Evidence(rule.ruleCode, factName, expected, actual, matched)
  {
    Verdict(rule.ruleCode, rule.description, PassFail(matched), rule.severity, rule.blocking,
            [Evidence(rule.ruleCode, factName, expected, actual, matched)])
  }

  /** A verdict for `rule`: code, description, severity and blocking copied
      from it, a single piece of evidence for the same code, and PASS exactly
      when that evidence matched (FAIL otherwise). */
  predicate FromRule(v: Verdict, rule: Rule) {
    v.ruleCode == rule.ruleCode && v.description == rule.description &&
    v.severity == rule.severity && v.blocking == rule.blocking &&
    |v.evidence| == 1 && v.evidence[0].ruleCode == rule.ruleCode &&
    v.result == PassFail(v.evidence[0].matched)
  }

  // ---------------------------------------------------------------------------
  // Margins

  function Abs(x: real): real {
    if x < 0.0 then -x else x
  }

  /** `value - required` fails for a value that is not a number (a bool
      counts as 0 or 1). */
  function SubtractError(value: Json): string {
    "unsupported operand type(s) for -: '" + TypeName(value) + "' and 'float'"
  }

  /** _check_margin against REQUIRED_MARGIN and MARGIN_TOLERANCE: None
      fails; a number passes when within the tolerance of one inch. */
  function CheckMargin(value: Json): (r: Result<bool, string>)
    ensures r.Err? <==> value.JStr? || value.JArr? || value.JObj?
    ensures r.Err? ==> r.error == SubtractError(value)
    ensures r == Ok(true) <==>
              (value.JNum? && RequiredMargin - MarginTolerance <= value.n <= RequiredMargin + MarginTolerance) ||
              value == JBool(true)
  {
    match value
    case JNull => Ok(false)
    case JBool(b) => Ok(Abs((if b then 1.0 else 0.0) - RequiredMargin) <= MarginTolerance)
    case JNum(n) => Ok(Abs(n - RequiredMargin) <= MarginTolerance)
    case _ => Err(SubtractError(value))
  }

  /** The margin rules in evaluation order, with the fact each one reads. */
  const MarginRules: seq<(RuleCode, FactName)> := [
    (MarginTopCode, MarginTop),
    (MarginBottomCode, MarginBottom),
    (MarginLeftCode, MarginLeft),
    (MarginRightCode, MarginRight)
  ]

  /** _evaluate_margin_rule. */
  function EvaluateMarginRule(rule: Rule, facts: LayoutFacts, margin: FactName): (r: Result<Verdict, string>)
    ensures r.Err? <==> CheckMargin(Fact(facts, margin)).Err?
    ensures r.Err? ==> r.error == SubtractError(Fact(facts, margin))
    ensures r.Ok? ==> FromRule(r.value, rule) &&
                      r.value.evidence[0] == Evidence(rule.ruleCode, margin.Key(), JNum(RequiredMargin),
                                                      Fact(facts, margin), r.value.evidence[0].matched) &&
                      (r.value.result == Pass <==> CheckMargin(Fact(facts, margin)) == Ok(true))
  {
    var actual := Fact(facts, margin);
    match CheckMargin(actual)
    case Err(e) => Err(e)
    case Ok(matched) => Ok(RuleVerdict(rule, margin.Key(), JNum(RequiredMargin), actual, matched))
  }

  /** The outcome of the `i`th margin rule. */
  function MarginOutcome(facts: LayoutFacts, i: nat): Result<Verdict, string>
    requires i < |MarginRules|
  {
    EvaluateMarginRule(TableRule(MarginRules[i].0), facts, MarginRules[i].1)
  }

  /** The verdicts of the first `n` margin rules, or the first error. */
  function MarginVerdicts(facts: LayoutFacts, n: nat): (r: Result<seq<Verdict>, string>)
    requires n <= |MarginRules|
    ensures r.Ok? ==> |r.value| == n
  {
    if n == 0 then Ok([])
    else match MarginVerdicts(facts, n - 1)
      case Err(e) => Err(e)
      case Ok(vs) =>
        match MarginOutcome(facts, n - 1)
        case Err(e) => Err(e)
        case Ok(v) => Ok(vs + [v])
  }

  /** The `i`th margin verdict is the `i`th rule's. */
  lemma {:induction false} MarginVerdictsValues(facts: LayoutFacts, n: nat)
    requires n <= |MarginRules| && MarginVerdicts(facts, n).Ok?
    ensures forall i :: 0 <= i < n ==> MarginOutcome(facts, i) == Ok(MarginVerdicts(facts, n).value[i])
    decreases n
  {
    if n > 0 {
      MarginVerdictsValues(facts, n - 1);
      var vs, v := MarginVerdicts(facts, n - 1).value, MarginOutcome(facts, n - 1).value;
      assert MarginVerdicts(facts, n).value == vs + [v];
      forall i | 0 <= i < n
        ensures MarginOutcome(facts, i) == Ok(MarginVerdicts(facts, n).value[i])
      {
        if i < n - 1 {
          assert (vs + [v])[i] == vs[i];
        }
      }
    }
  }

  /** The loop raises nothing when none of the first `n` rules does. */
  lemma {:induction false} MarginVerdictsOk(facts: LayoutFacts, n: nat)
    requires n <= |MarginRules|
    requires forall i :: 0 <= i < n ==> MarginOutcome(facts, i).Ok?
    ensures MarginVerdicts(facts, n).Ok?
    decreases n
  {
    if n > 0 {
      MarginVerdictsOk(facts, n - 1);
      MarginVerdictsExtend(facts, n - 1, MarginVerdicts(facts, n - 1).value, MarginOutcome(facts, n - 1).value);
    }
  }

  /** The loop raises when any of the first `n` rules does. */
  lemma {:induction false} MarginVerdictsErr(facts: LayoutFacts, n: nat, i: nat)
    requires i < n <= |MarginRules| && MarginOutcome(facts, i).Err?
    ensures MarginVerdicts(facts, n).Err?
    decreases n
  {
    if i < n - 1 {
      MarginVerdictsErr(facts, n - 1, i);
      MarginErrorStep(facts, n, MarginVerdicts(facts, n - 1).error);
    } else if MarginVerdicts(facts, n - 1).Err? {
      MarginErrorStep(facts, n, MarginVerdicts(facts, n - 1).error);
    } else {
      MarginErrorFirst(facts, n - 1, MarginOutcome(facts, n - 1).error);
    }
  }

  /** Once a margin rule has failed with an error, so have all longer prefixes. */
  lemma {:induction false} MarginErrorPersists(facts: LayoutFacts, i: nat, n: nat, e: string)
    requires i < n <= |MarginRules|
    requires MarginVerdicts(facts, i).Ok?
    requires MarginOutcome(facts, i) == Err(e)
    ensures MarginVerdicts(facts, n) == Err(e)
    decreases n
  {
    if n > i + 1 {
      MarginErrorPersists(facts, i, n - 1, e);
      MarginErrorStep(facts, n, e);
    } else {
      MarginErrorFirst(facts, i, e);
    }
  }

  lemma MarginErrorFirst(facts: LayoutFacts, i: nat, e: string)
    requires i < |MarginRules| && MarginVerdicts(facts, i).Ok?
    requires MarginOutcome(facts, i) == Err(e)
    ensures MarginVerdicts(facts, i + 1) == Err(e)
  {
  }

  lemma MarginErrorStep(facts: LayoutFacts, n: nat, e: string)
    requires 0 < n <= |MarginRules| && MarginVerdicts(facts, n - 1) == Err(e)
    ensures MarginVerdicts(facts, n) == Err(e)
  {
  }

  // ---------------------------------------------------------------------------
  // Fonts

  /** `font_name in VALID_FONTS`: a list or dict is unhashable. */
  function FontIsValid(fontName: Json): (r: Result<bool, string>)
    ensures r.Err? <==> fontName.JArr? || fontName.JObj?
    ensures r.Err? ==> r.error == "unhashable type: '" + TypeName(fontName) + "'"
    ensures r == Ok(true) <==> fontName.JStr? && fontName.s in FontNames()
  {
    match fontName
    case JStr(s) => Ok(s in FontNames())
    case JArr(_) => Err("unhashable type: 'list'")
    case JObj(_) => Err("unhashable type: 'dict'")
    case _ => Ok(false)
  }

  /** `actual == required if actual is not None else False`: only a number
      equal to the required size matches (a bool is 0 or 1, never a valid size). */
  function SizeMatches(actual: Json, required: real): bool {
    actual.JNum? && actual.n == required
  }

  /** The FONT-VALID verdict: the valid font names are the expected value. */
  function FontValidVerdict(facts: LayoutFacts, valid: bool): (v: Verdict)
    ensures FromRule(v, TableRule(FontValidCode)) && v.result == PassFail(valid)
    ensures v.evidence[0] == Evidence(FontValidCode, "font_name", StringList(FontNames()), facts.fontName, valid)
  {
    RuleVerdict(TableRule(FontValidCode), "font_name", StringList(FontNames()), facts.fontName, valid)
  }

  /** The size verdict of a valid font: its required size is the expected
      value and only that exact number matches. */
  function FontSizeVerdict(facts: LayoutFacts, name: string): (v: Verdict)
    requires name in FontNames()
    ensures RequiredSize(name).Some? && SizeRuleCode(name).Some?
    ensures FromRule(v, TableRule(SizeRuleCode(name).value))
    ensures v.ruleCode == SizeRuleCode(name).value && v.evidence[0].factName == "font_size"
    ensures v.evidence[0].expectedValue == JNum(RequiredSize(name).value)
    ensures v.evidence[0].actualValue == facts.fontSize
    ensures v.result == Pass <==> facts.fontSize == JNum(RequiredSize(name).value)
  {
    EveryFontHasSizeRule(name);
    var required := RequiredSize(name).value;
    RuleVerdict(TableRule(SizeRuleCode(name).value), "font_size", JNum(required), facts.fontSize, SizeMatches(facts.fontSize, required))
  }

  /** The verdicts _evaluate_font_rules returns for the facts: FONT-VALID,
      then the size rule of the font when the font is valid. */
  function FontVerdicts(facts: LayoutFacts): (r: Result<seq<Verdict>, string>)
    ensures r.Err? <==> FontIsValid(facts.fontName).Err?
    ensures r.Ok? ==> (|r.value| == 2 <==> FontIsValid(facts.fontName) == Ok(true)) && 1 <= |r.value| <= 2
  {
    var validity := FontIsValid(facts.fontName);
    if validity.Err? then Err(validity.error)
    else if validity.value then Ok([FontValidVerdict(facts, true), FontSizeVerdict(facts, facts.fontName.s)])
    else Ok([FontValidVerdict(facts, false)])
  }

  lemma AppendOne<T>(a: T, b: T)
    ensures [a] + [b] == [a, b]
  {
  }

  lemma AppendTwo<T>(s: seq<T>, a: T, b: T)
    ensures s + [a] + [b] == s + [a, b]
  {
  }

  /** _evaluate_font_rules over the table. */
  method EvaluateFontRules(facts: LayoutFacts) returns (r: Result<seq<Verdict>, string>)
    ensures r == FontVerdicts(facts)
  {
    var fontName := facts.fontName;
    var validity := FontIsValid(fontName);
    if validity.Err? {
      return Err(validity.error);
    }
    var fontIsValid := validity.value;
    var fontVerdict := FontValidVerdict(facts, fontIsValid);
    var verdicts := [fontVerdict];
    // A valid font name is a non-empty string, and every valid font has a size rule.
    if fontIsValid {
      var sizeVerdict := FontSizeVerdict(facts, fontName.s);
      AppendOne(fontVerdict, sizeVerdict);
      verdicts := verdicts + [sizeVerdict];
    }
    return Ok(verdicts);
  }

  // ---------------------------------------------------------------------------
  // Line spacing and page numbering

  /** _evaluate_line_spacing_rule: only a number equal to 2.0 matches. */
  function EvaluateLineSpacingRule(rule: Rule, facts: LayoutFacts): (v: Verdict)
    ensures FromRule(v, rule)
    ensures v.evidence[0].factName == "line_spacing" && v.evidence[0].actualValue == facts.lineSpacing
    ensures v.evidence[0].expectedValue == JNum(RequiredLineSpacing)
    ensures v.result == Pass <==> facts.lineSpacing == JNum(2.0)
  {
    var actual := facts.lineSpacing;
    RuleVerdict(rule, "line_spacing", JNum(RequiredLineSpacing), actual, actual.JNum? && actual.n == RequiredLineSpacing)
  }

  /** _evaluate_page_numbering_rule: `actual is True`, so only the boolean
      true matches, not any other truthy value. */
  function EvaluatePageNumberingRule(rule: Rule, facts: LayoutFacts): (v: Verdict)
    ensures FromRule(v, rule)
    ensures v.evidence[0].factName == "page_numbering" && v.evidence[0].actualValue == facts.pageNumbering
    ensures v.evidence[0].expectedValue == JBool(true)
    ensures v.result == Pass <==> facts.pageNumbering == JBool(true)
  {
    var actual := facts.pageNumbering;
    RuleVerdict(rule, "page_numbering", JBool(true), actual, actual == JBool(true))
  }

  // ---------------------------------------------------------------------------
  // The whole evaluation

  /** What validate_apa7_layout returns: the margin verdicts, the font
      verdicts, line spacing, page numbering; or the first exception. */
  function LayoutVerdicts(facts: LayoutFacts): (r: Result<seq<Verdict>, string>)
    ensures r.Err? <==> MarginVerdicts(facts, |MarginRules|).Err? || FontIsValid(facts.fontName).Err?
  {
    var margins := MarginVerdicts(facts, |MarginRules|);
    var fonts := FontVerdicts(facts);
    if margins.Err? then Err(margins.error)
    else if fonts.Err? then Err(fonts.error)
    else Ok(margins.value + fonts.value + ClosingVerdicts(facts))
  }

  /** The line spacing and page numbering verdicts, which end the list. */
  function ClosingVerdicts(facts: LayoutFacts): (vs: seq<Verdict>)
    ensures |vs| == 2 && vs[0].ruleCode == LineSpacingCode && vs[1].ruleCode == PageNumberingCode
  {
    [EvaluateLineSpacingRule(TableRule(LineSpacingCode), facts),
     EvaluatePageNumberingRule(TableRule(PageNumberingCode), facts)]
  }

  /** The three parts, once the margins and the fonts raised nothing. */
  lemma LayoutVerdictsOk(facts: LayoutFacts, margins: seq<Verdict>, fonts: seq<Verdict>)
    requires MarginVerdicts(facts, |MarginRules|) == Ok(margins) && FontVerdicts(facts) == Ok(fonts)
    ensures LayoutVerdicts(facts) == Ok(margins + fonts + ClosingVerdicts(facts))
  {
  }

  /** An exception from a margin rule ends the evaluation with it. */
  lemma LayoutMarginError(facts: LayoutFacts, e: string)
    requires MarginVerdicts(facts, |MarginRules|) == Err(e)
    ensures LayoutVerdicts(facts) == Err(e)
  {
  }

  /** An exception from the font rules, after the margins, ends it too. */
  lemma LayoutFontError(facts: LayoutFacts, margins: seq<Verdict>, e: string)
    requires MarginVerdicts(facts, |MarginRules|) == Ok(margins) && FontVerdicts(facts) == Err(e)
    ensures LayoutVerdicts(facts) == Err(e)
  {
  }

  /** One more margin rule evaluated without an exception. */
  lemma MarginVerdictsExtend(facts: LayoutFacts, i: nat, vs: seq<Verdict>, v: Verdict)
    requires i < |MarginRules| && MarginVerdicts(facts, i) == Ok(vs)
    requires MarginOutcome(facts, i) == Ok(v)
    ensures MarginVerdicts(facts, i + 1) == Ok(vs + [v])
  {
  }

  /** validate_apa7_layout. */
  method ValidateApa7Layout(facts: LayoutFacts) returns (r: Result<seq<Verdict>, string>)
    ensures r == LayoutVerdicts(facts)
  {
    var verdicts: seq<Verdict> := [];
    for i := 0 to |MarginRules|
      invariant MarginVerdicts(facts, i) == Ok(verdicts)
    {
      var (ruleCode, marginName) := MarginRules[i];
      var rule := TableRule(ruleCode);
      var verdict := EvaluateMarginRule(rule, facts, marginName);
      if verdict.Err? {
        MarginErrorPersists(facts, i, |MarginRules|, verdict.error);
        LayoutMarginError(facts, verdict.error);
        return Err(verdict.error);
      }
      MarginVerdictsExtend(facts, i, verdicts, verdict.value);
      verdicts := verdicts + [verdict.value];
    }
    ghost var margins := verdicts;
    var fontVerdicts := EvaluateFontRules(facts);
    if fontVerdicts.Err? {
      LayoutFontError(facts, margins, fontVerdicts.error);
      return Err(fontVerdicts.error);
    }
    verdicts := verdicts + fontVerdicts.value;
    var lineSpacingRule := TableRule(LineSpacingCode);
    var lineSpacing := EvaluateLineSpacingRule(lineSpacingRule, facts);
    var pageNumberingRule := TableRule(PageNumberingCode);
    var pageNumbering := EvaluatePageNumberingRule(pageNumberingRule, facts);
    AppendTwo(verdicts, lineSpacing, pageNumbering);
    verdicts := verdicts + [lineSpacing];
    verdicts := verdicts + [pageNumbering];
    LayoutVerdictsOk(facts, margins, fontVerdicts.value);
    return Ok(verdicts);
  }

  // ---------------------------------------------------------------------------
  // Properties of the evaluation

  /** A margin value that passes: a number within the tolerance of one inch
      (or `True`, which Python subtracts as 1). */
  predicate MarginPasses(value: Json) {
    (value.JNum? && RequiredMargin - MarginTolerance <= value.n <= RequiredMargin + MarginTolerance) ||
    value == JBool(true)
  }

  /** A font name that is valid: one of the VALID_FONTS keys. */
  predicate ValidFont(facts: LayoutFacts) {
    facts.fontName.JStr? && facts.fontName.s in FontNames()
  }

  /** The rule codes in the order the verdicts come out: the four margins,
      FONT-VALID, the size rule of a valid font, line spacing, page numbering. */
  function ExpectedCodes(facts: LayoutFacts): (codes: seq<RuleCode>)
    ensures |codes| == if ValidFont(facts) then 8 else 7
    ensures codes[0] == MarginTopCode && codes[1] == MarginBottomCode
    ensures codes[2] == MarginLeftCode && codes[3] == MarginRightCode && codes[4] == FontValidCode
    ensures ValidFont(facts) ==> codes[5] == SizeRuleCode(facts.fontName.s).value
    ensures codes[|codes| - 2] == LineSpacingCode && codes[|codes| - 1] == PageNumberingCode
  {
    var sizeCodes := if ValidFont(facts) then [SizeRuleCode(facts.fontName.s).value] else [];
    ConcatIndex([MarginTopCode, MarginBottomCode, MarginLeftCode, MarginRightCode, FontValidCode], sizeCodes,
                [LineSpacingCode, PageNumberingCode]);
    [MarginTopCode, MarginBottomCode, MarginLeftCode, MarginRightCode, FontValidCode] + sizeCodes +
    [LineSpacingCode, PageNumberingCode]
  }

  /** Where the three parts sit in the list: the margins first, then the
      font verdicts, and line spacing and page numbering last. */
  lemma LayoutAt(facts: LayoutFacts)
    requires LayoutVerdicts(facts).Ok?
    ensures MarginVerdicts(facts, |MarginRules|).Ok? && FontVerdicts(facts).Ok?
    ensures var vs, margins, fonts := LayoutVerdicts(facts).value, MarginVerdicts(facts, |MarginRules|).value, FontVerdicts(facts).value;
      |margins| == 4 && |vs| == 6 + |fonts| && 1 <= |fonts| <= 2 &&
      vs[0] == margins[0] && vs[1] == margins[1] && vs[2] == margins[2] && vs[3] == margins[3] &&
      vs[4] == fonts[0] && (|fonts| == 2 ==> vs[5] == fonts[1]) &&
      vs[|vs| - 2] == ClosingVerdicts(facts)[0] && vs[|vs| - 1] == ClosingVerdicts(facts)[1]
  {
    var margins, fonts, closing := MarginVerdicts(facts, |MarginRules|).value, FontVerdicts(facts).value, ClosingVerdicts(facts);
    ConcatIndex(margins, fonts, closing);
  }

  /** Positions in a list made of three parts. */
  lemma ConcatIndex<T>(a: seq<T>, b: seq<T>, c: seq<T>)
    ensures |a + b + c| == |a| + |b| + |c|
    ensures forall k :: 0 <= k < |a| ==> (a + b + c)[k] == a[k]
    ensures forall k :: 0 <= k < |b| ==> (a + b + c)[|a| + k] == b[k]
    ensures forall k :: 0 <= k < |c| ==> (a + b + c)[|a| + |b| + k] == c[k]
  {
  }

  /** A margin verdict for `code` reading `value`: blocking, with one piece
      of evidence recording the value, passing exactly when the margin does. */
  predicate MarginVerdictIs(v: Verdict, code: RuleCode, value: Json) {
    v.ruleCode == code && v.blocking && |v.evidence| == 1 &&
    v.evidence[0].actualValue == value && v.result == PassFail(MarginPasses(value))
  }

  /** The verdict of the `k`th margin rule. */
  lemma MarginEntry(facts: LayoutFacts, k: nat)
    requires k < |MarginRules| && MarginVerdicts(facts, |MarginRules|).Ok?
    ensures var ms := MarginVerdicts(facts, |MarginRules|).value;
      |ms| == 4 && MarginVerdictIs(ms[k], MarginRules[k].0, Fact(facts, MarginRules[k].1)) && FromTable(ms[k])
  {
    MarginVerdictsValues(facts, |MarginRules|);
  }

  /** The four margin verdicts, in order, each from its own rule and fact. */
  lemma MarginEntries(facts: LayoutFacts)
    requires MarginVerdicts(facts, |MarginRules|).Ok?
    ensures var ms := MarginVerdicts(facts, |MarginRules|).value;
      |ms| == 4 &&
      MarginVerdictIs(ms[0], MarginTopCode, facts.marginTop) && MarginVerdictIs(ms[1], MarginBottomCode, facts.marginBottom) &&
      MarginVerdictIs(ms[2], MarginLeftCode, facts.marginLeft) && MarginVerdictIs(ms[3], MarginRightCode, facts.marginRight) &&
      FromTable(ms[0]) && FromTable(ms[1]) && FromTable(ms[2]) && FromTable(ms[3])
  {
    MarginFacts(facts);
    MarginEntry(facts, 0);
    MarginEntry(facts, 1);
    MarginEntry(facts, 2);
    MarginEntry(facts, 3);
  }

  /** The font verdicts: FONT-VALID, then the size verdict exactly when the
      font is valid. */
  lemma FontEntries(facts: LayoutFacts)
    requires FontVerdicts(facts).Ok?
    ensures var fs := FontVerdicts(facts).value;
      fs[0] == FontValidVerdict(facts, ValidFont(facts)) &&
      (ValidFont(facts) ==> |fs| == 2 && fs[1] == FontSizeVerdict(facts, facts.fontName.s)) &&
      (!ValidFont(facts) ==> |fs| == 1)
  {
  }

  /** The margin verdicts open the list, in MarginRules order. */
  lemma MarginVerdictsAt(facts: LayoutFacts)
    requires LayoutVerdicts(facts).Ok?
    ensures var vs := LayoutVerdicts(facts).value;
      |vs| >= 7 &&
      MarginVerdictIs(vs[0], MarginTopCode, facts.marginTop) && MarginVerdictIs(vs[1], MarginBottomCode, facts.marginBottom) &&
      MarginVerdictIs(vs[2], MarginLeftCode, facts.marginLeft) && MarginVerdictIs(vs[3], MarginRightCode, facts.marginRight)
  {
    LayoutAt(facts);
    MarginEntries(facts);
  }

  /** The fifth verdict is FONT-VALID; it passes exactly when the font is
      valid, and only then does a size verdict follow. */
  lemma FontValidVerdictAt(facts: LayoutFacts)
    requires LayoutVerdicts(facts).Ok?
    ensures var vs := LayoutVerdicts(facts).value;
      |vs| == (if ValidFont(facts) then 8 else 7) &&
      vs[4].ruleCode == FontValidCode && vs[4].result == PassFail(ValidFont(facts)) &&
      |vs[4].evidence| == 1 && vs[4].evidence[0].actualValue == facts.fontName
  {
    LayoutAt(facts);
    FontEntries(facts);
  }

  /** For a valid font the sixth verdict is its size rule, whose evidence
      records the required size and the actual one; it passes exactly when
      they are the same number. */
  lemma FontSizeVerdictAt(facts: LayoutFacts)
    requires LayoutVerdicts(facts).Ok? && ValidFont(facts)
    ensures RequiredSize(facts.fontName.s).Some? && SizeRuleCode(facts.fontName.s).Some?
    ensures var vs := LayoutVerdicts(facts).value;
      var required := RequiredSize(facts.fontName.s).value;
      |vs| == 8 && vs[5].ruleCode == SizeRuleCode(facts.fontName.s).value && |vs[5].evidence| == 1 &&
      vs[5].evidence[0].expectedValue == JNum(required) && vs[5].evidence[0].actualValue == facts.fontSize &&
      (vs[5].evidence[0].matched <==> facts.fontSize == JNum(required)) &&
      vs[5].result == PassFail(facts.fontSize == JNum(required))
  {
    LayoutAt(facts);
    FontEntries(facts);
  }

  /** The last two verdicts are LINE-SPACING, passing only on 2.0, and
      PAGE-NUMBERING, passing only on `True`. */
  lemma ClosingVerdictsAt(facts: LayoutFacts)
    requires LayoutVerdicts(facts).Ok?
    ensures var vs := LayoutVerdicts(facts).value;
      |vs| >= 7 &&
      vs[|vs| - 2].ruleCode == LineSpacingCode && |vs[|vs| - 2].evidence| == 1 &&
      vs[|vs| - 2].evidence[0].actualValue == facts.lineSpacing &&
      vs[|vs| - 2].result == PassFail(facts.lineSpacing == JNum(RequiredLineSpacing)) &&
      vs[|vs| - 1].ruleCode == PageNumberingCode && |vs[|vs| - 1].evidence| == 1 &&
      vs[|vs| - 1].evidence[0].actualValue == facts.pageNumbering &&
      vs[|vs| - 1].result == PassFail(facts.pageNumbering == JBool(true))
  {
    LayoutAt(facts);
  }

  /** The verdicts come out in table order: the four margins, FONT-VALID,
      the size rule of the font when it is valid, line spacing, page
      numbering; eight verdicts for a valid font, seven otherwise. */
  lemma VerdictOrder(facts: LayoutFacts)
    requires LayoutVerdicts(facts).Ok?
    ensures var vs := LayoutVerdicts(facts).value;
      |vs| == |ExpectedCodes(facts)| == (if ValidFont(facts) then 8 else 7) &&
      forall k :: 0 <= k < |vs| ==> vs[k].ruleCode == ExpectedCodes(facts)[k]
  {
    MarginVerdictsAt(facts);
    FontValidVerdictAt(facts);
    ClosingVerdictsAt(facts);
    var vs, codes := LayoutVerdicts(facts).value, ExpectedCodes(facts);
    if ValidFont(facts) {
      FontSizeVerdictAt(facts);
      assert |vs| == |codes| == 8;
    } else {
      assert |vs| == |codes| == 7;
    }
    CodesInOrder(vs, codes);
  }

  /** Seven or eight verdicts carry the codes of a list of the same length
      once each of their positions does. */
  lemma CodesInOrder(vs: seq<Verdict>, codes: seq<RuleCode>)
    requires |vs| == |codes| && 7 <= |vs| <= 8
    requires vs[0].ruleCode == codes[0] && vs[1].ruleCode == codes[1] && vs[2].ruleCode == codes[2]
    requires vs[3].ruleCode == codes[3] && vs[4].ruleCode == codes[4]
    requires |vs| == 8 ==> vs[5].ruleCode == codes[5]
    requires vs[|vs| - 2].ruleCode == codes[|vs| - 2] && vs[|vs| - 1].ruleCode == codes[|vs| - 1]
    ensures forall k :: 0 <= k < |vs| ==> vs[k].ruleCode == codes[k]
  {
    forall k | 0 <= k < |vs|
      ensures vs[k].ruleCode == codes[k]
    {
      assert k < 5 || (k == 5 && |vs| == 8) || k == |vs| - 2 || k == |vs| - 1;
    }
  }

  /** Seven or eight verdicts all have the result `o` once each of their
      positions does. */
  lemma EveryResult(vs: seq<Verdict>, o: Outcome)
    requires 7 <= |vs| <= 8
    requires vs[0].result == o && vs[1].result == o && vs[2].result == o && vs[3].result == o && vs[4].result == o
    requires |vs| == 8 ==> vs[5].result == o
    requires vs[|vs| - 2].result == o && vs[|vs| - 1].result == o
    ensures forall k :: 0 <= k < |vs| ==> vs[k].result == o
  {
    forall k | 0 <= k < |vs|
      ensures vs[k].result == o
    {
      assert k < 5 || (k == 5 && |vs| == 8) || k == |vs| - 2 || k == |vs| - 1;
    }
  }

  /** A verdict built from the table rule with its own code. */
  predicate FromTable(v: Verdict) {
    FromRule(v, TableRule(v.ruleCode))
  }

  /** Every verdict, position by position, is built from the table rule
      with its code: description, severity and blocking copied, one piece of
      evidence for that code, and PASS exactly when the evidence matched. */
  lemma VerdictsFromTable(facts: LayoutFacts)
    requires LayoutVerdicts(facts).Ok?
    ensures var vs := LayoutVerdicts(facts).value;
      7 <= |vs| <= 8 &&
      FromTable(vs[0]) && FromTable(vs[1]) && FromTable(vs[2]) && FromTable(vs[3]) && FromTable(vs[4]) &&
      (|vs| == 8 ==> FromTable(vs[5])) && FromTable(vs[|vs| - 2]) && FromTable(vs[|vs| - 1])
  {
    MarginsFromTable(facts);
    FontsFromTable(facts);
    ClosingFromTable(facts);
  }

  lemma MarginsFromTable(facts: LayoutFacts)
    requires LayoutVerdicts(facts).Ok?
    ensures var vs := LayoutVerdicts(facts).value;
      7 <= |vs| <= 8 && FromTable(vs[0]) && FromTable(vs[1]) && FromTable(vs[2]) && FromTable(vs[3])
  {
    LayoutAt(facts);
    MarginEntries(facts);
  }

  lemma FontsFromTable(facts: LayoutFacts)
    requires LayoutVerdicts(facts).Ok?
    ensures var vs := LayoutVerdicts(facts).value;
      |vs| >= 7 && FromTable(vs[4]) && (|vs| == 8 ==> FromTable(vs[5]))
  {
    LayoutAt(facts);
    FontEntries(facts);
  }

  lemma ClosingFromTable(facts: LayoutFacts)
    requires LayoutVerdicts(facts).Ok?
    ensures var vs := LayoutVerdicts(facts).value;
      |vs| >= 7 && FromTable(vs[|vs| - 2]) && FromTable(vs[|vs| - 1])
  {
    LayoutAt(facts);
  }

  /** A margin that is a string, list or dict, or a font name that is a list
      or dict, raises; nothing else does. */
  lemma TechnicalErrors(facts: LayoutFacts)
    ensures LayoutVerdicts(facts).Err? <==>
              (exists k :: 0 <= k < 4 && CheckMargin(Fact(facts, MarginRules[k].1)).Err?) ||
              facts.fontName.JArr? || facts.fontName.JObj?
  {
    if exists k :: 0 <= k < 4 && CheckMargin(Fact(facts, MarginRules[k].1)).Err? {
      var k :| 0 <= k < 4 && CheckMargin(Fact(facts, MarginRules[k].1)).Err?;
      MarginVerdictsErr(facts, |MarginRules|, k);
      LayoutMarginError(facts, MarginVerdicts(facts, |MarginRules|).error);
    } else {
      MarginVerdictsOk(facts, |MarginRules|);
    }
  }

  /** The first margin that raises is the error reported, before any font
      problem. */
  lemma FirstMarginErrorReported(facts: LayoutFacts, k: nat)
    requires k < 4 && CheckMargin(Fact(facts, MarginRules[k].1)).Err?
    requires forall j :: 0 <= j < k ==> CheckMargin(Fact(facts, MarginRules[j].1)).Ok?
    ensures LayoutVerdicts(facts) == Err(SubtractError(Fact(facts, MarginRules[k].1)))
  {
    MarginVerdictsOk(facts, k);
    MarginErrorPersists(facts, k, |MarginRules|, SubtractError(Fact(facts, MarginRules[k].1)));
    LayoutMarginError(facts, SubtractError(Fact(facts, MarginRules[k].1)));
  }

  predicate AllPassed(vs: seq<Verdict>) {
    forall k :: 0 <= k < |vs| ==> vs[k].result == Pass
  }

  /** Facts that meet every APA7 layout rule: four margins within the
      tolerance of one inch, a valid font at its required size, double
      spacing and page numbers. */
  predicate Compliant(facts: LayoutFacts) {
    MarginPasses(facts.marginTop) && MarginPasses(facts.marginBottom) &&
    MarginPasses(facts.marginLeft) && MarginPasses(facts.marginRight) &&
    ValidFont(facts) && RequiredSize(facts.fontName.s).Some? &&
    facts.fontSize == JNum(RequiredSize(facts.fontName.s).value) &&
    facts.lineSpacing == JNum(RequiredLineSpacing) &&
    facts.pageNumbering == JBool(true)
  }

  lemma CompliantRaisesNothing(facts: LayoutFacts)
    requires Compliant(facts)
    ensures LayoutVerdicts(facts).Ok?
  {
    NoTechnicalError(facts);
  }

  /** The fact each margin rule reads. */
  lemma MarginFacts(facts: LayoutFacts)
    ensures Fact(facts, MarginRules[0].1) == facts.marginTop
    ensures Fact(facts, MarginRules[1].1) == facts.marginBottom
    ensures Fact(facts, MarginRules[2].1) == facts.marginLeft
    ensures Fact(facts, MarginRules[3].1) == facts.marginRight
  {
  }

  lemma PassedIsCompliant(facts: LayoutFacts)
    requires LayoutVerdicts(facts).Ok? && AllPassed(LayoutVerdicts(facts).value)
    ensures Compliant(facts)
  {
    MarginVerdictsAt(facts);
    FontValidVerdictAt(facts);
    ClosingVerdictsAt(facts);
    MarginFacts(facts);
    var vs := LayoutVerdicts(facts).value;
    assert vs[0].result == Pass && vs[1].result == Pass && vs[2].result == Pass && vs[3].result == Pass;
    assert vs[4].result == Pass;
    FontSizeVerdictAt(facts);
    assert vs[5].result == Pass && vs[6].result == Pass && vs[7].result == Pass;
  }

  lemma CompliantPasses(facts: LayoutFacts)
    requires LayoutVerdicts(facts).Ok? && Compliant(facts)
    ensures AllPassed(LayoutVerdicts(facts).value)
  {
    MarginVerdictsAt(facts);
    FontValidVerdictAt(facts);
    FontSizeVerdictAt(facts);
    ClosingVerdictsAt(facts);
    MarginFacts(facts);
    EveryResult(LayoutVerdicts(facts).value, Pass);
  }

  /** Every verdict passes exactly when the facts are compliant; compliant
      facts never raise. */
  lemma AllPassIffCompliant(facts: LayoutFacts)
    ensures Compliant(facts) ==> LayoutVerdicts(facts).Ok?
    ensures LayoutVerdicts(facts).Ok? ==> (AllPassed(LayoutVerdicts(facts).value) <==> Compliant(facts))
  {
    if Compliant(facts) {
      CompliantRaisesNothing(facts);
      CompliantPasses(facts);
    }
    if LayoutVerdicts(facts).Ok? && AllPassed(LayoutVerdicts(facts).value) {
      PassedIsCompliant(facts);
    }
  }

  /** A value `value - 1.0` accepts: None, a bool or a number. */
  predicate Subtractable(value: Json) {
    value.JNull? || value.JBool? || value.JNum?
  }

  /** A document whose margins cannot raise and whose font is valid gets
      its size verdict sixth, failing exactly when the size is not the one
      its font requires. */
  lemma ValidFontSizeVerdict(facts: LayoutFacts)
    requires Subtractable(facts.marginTop) && Subtractable(facts.marginBottom)
    requires Subtractable(facts.marginLeft) && Subtractable(facts.marginRight)
    requires ValidFont(facts)
    ensures RequiredSize(facts.fontName.s).Some? && SizeRuleCode(facts.fontName.s).Some?
    ensures LayoutVerdicts(facts).Ok? && |LayoutVerdicts(facts).value| == 8 &&
      var v, required := LayoutVerdicts(facts).value[5], RequiredSize(facts.fontName.s).value;
      v.ruleCode == SizeRuleCode(facts.fontName.s).value && |v.evidence| == 1 &&
      v.evidence[0].expectedValue == JNum(required) && v.evidence[0].actualValue == facts.fontSize &&
      (v.evidence[0].matched <==> facts.fontSize == JNum(required)) &&
      (v.result == Fail <==> facts.fontSize != JNum(required))
  {
    NoTechnicalError(facts);
    FontSizeVerdictAt(facts);
  }

  /** A document whose margins cannot raise and whose font is valid gets
      all eight verdicts, line spacing seventh and page numbering eighth. */
  lemma ValidFontClosingVerdicts(facts: LayoutFacts)
    requires Subtractable(facts.marginTop) && Subtractable(facts.marginBottom)
    requires Subtractable(facts.marginLeft) && Subtractable(facts.marginRight)
    requires ValidFont(facts)
    ensures LayoutVerdicts(facts).Ok? && |LayoutVerdicts(facts).value| == 8 &&
      var vs := LayoutVerdicts(facts).value;
      vs[6].ruleCode == LineSpacingCode && (vs[6].result == Pass <==> facts.lineSpacing == JNum(RequiredLineSpacing)) &&
      vs[7].ruleCode == PageNumberingCode && (vs[7].result == Pass <==> facts.pageNumbering == JBool(true))
  {
    NoTechnicalError(facts);
    FontValidVerdictAt(facts);
    ClosingVerdictsAt(facts);
  }

  /** Facts that are wrong everywhere, without raising, fail every rule:
      seven verdicts (no size rule without a valid font), none passing. */
  lemma WrongEverywhereFailsEveryRule(facts: LayoutFacts)
    requires Subtractable(facts.marginTop) && !MarginPasses(facts.marginTop)
    requires Subtractable(facts.marginBottom) && !MarginPasses(facts.marginBottom)
    requires Subtractable(facts.marginLeft) && !MarginPasses(facts.marginLeft)
    requires Subtractable(facts.marginRight) && !MarginPasses(facts.marginRight)
    requires !ValidFont(facts) && !facts.fontName.JArr? && !facts.fontName.JObj?
    requires facts.lineSpacing != JNum(RequiredLineSpacing) && facts.pageNumbering != JBool(true)
    ensures LayoutVerdicts(facts).Ok? && |LayoutVerdicts(facts).value| == 7
    ensures forall k :: 0 <= k < |LayoutVerdicts(facts).value| ==> LayoutVerdicts(facts).value[k].result == Fail
  {
    NoTechnicalError(facts);
    MarginVerdictsAt(facts);
    FontValidVerdictAt(facts);
    ClosingVerdictsAt(facts);
    MarginFacts(facts);
    EveryResult(LayoutVerdicts(facts).value, Fail);
  }

  /** Margins that are None, booleans or numbers and a font name that is
      not a list or dict never raise. */
  lemma NoTechnicalError(facts: LayoutFacts)
    requires Subtractable(facts.marginTop) && Subtractable(facts.marginBottom)
    requires Subtractable(facts.marginLeft) && Subtractable(facts.marginRight)
    requires !facts.fontName.JArr? && !facts.fontName.JObj?
    ensures LayoutVerdicts(facts).Ok?
  {
    MarginsRaiseNothing(facts);
    TechnicalErrors(facts);
  }

  lemma MarginsRaiseNothing(facts: LayoutFacts)
    requires Subtractable(facts.marginTop) && Subtractable(facts.marginBottom)
    requires Subtractable(facts.marginLeft) && Subtractable(facts.marginRight)
    ensures forall k :: 0 <= k < 4 ==> CheckMargin(Fact(facts, MarginRules[k].1)).Ok?
  {
    MarginFacts(facts);
    forall k | 0 <= k < 4
      ensures CheckMargin(Fact(facts, MarginRules[k].1)).Ok?
    {
      assert k == 0 || k == 1 || k == 2 || k == 3;
    }
  }

  /** The first verdict is MARGIN-TOP, a blocking rule, and passes exactly
      when the top margin does. */
  lemma FirstVerdictIsTopMargin(facts: LayoutFacts)
    requires LayoutVerdicts(facts).Ok?
    ensures var v := LayoutVerdicts(facts).value[0];
      v.ruleCode == MarginTopCode && v.blocking && (v.result == Pass <==> MarginPasses(facts.marginTop))
  {
    MarginVerdictsAt(facts);
    MarginFacts(facts);
    TableShape();
  }

  // ---------------------------------------------------------------------------
  // compute_verdict_hash

  /** The bytes compute_verdict_hash digests: the UTF-8 encoding of
      `json.dumps([v.to_dict() for v in verdicts], sort_keys=True)`, with
      json.dumps's default separators. */
  function VerdictHashInput(verdicts: seq<Verdict>): seq<byte> {
    Utf8(Dumps(JArr(Map(VerdictDict, verdicts)), Spaced))
  }

  /** compute_verdict_hash. */
  function ComputeVerdictHash(verdicts: seq<Verdict>): (h: string)
    ensures |h| == 64 && IsLowerHex(h)
  {
    Sha256Hex(VerdictHashInput(verdicts))
  }

  /** Two verdicts with the same evidence that differ elsewhere serialise
      differently. */
  lemma VerdictTextSensitive(v1: Verdict, v2: Verdict)
    requires v1.evidence == v2.evidence && v1 != v2
    ensures Dumps(VerdictDict(v1), Spaced) != Dumps(VerdictDict(v2), Spaced)
  {
    var ms1, ms2 := v1.ToDict().members, v2.ToDict().members;
    if v1.ruleCode != v2.ruleCode {
      TextInjective(v1.ruleCode, v2.ruleCode);
      assert ms1[0].1 != ms2[0].1;
    } else if v1.description != v2.description {
      assert ms1[1].1 != ms2[1].1;
    } else if v1.result != v2.result {
      assert ms1[2].1 != ms2[2].1;
    } else if v1.severity != v2.severity {
      assert ms1[3].1 != ms2[3].1;
    } else {
      assert ms1[4].1 != ms2[4].1;
    }
    VerdictDictsComparable(v1, v2);
    ScalarObjectSensitive(ms1, ms2, Spaced);
  }

  /** Verdicts that share their evidence have dicts that differ at most in
      string and boolean members. */
  lemma VerdictDictsComparable(v1: Verdict, v2: Verdict)
    requires v1.evidence == v2.evidence
    ensures var ms1, ms2 := v1.ToDict().members, v2.ToDict().members;
      forall i :: 0 <= i < |ms1| ==> ms1[i].1 == ms2[i].1 || (Scalar(ms1[i].1) && Scalar(ms2[i].1))
  {
    var ms1, ms2 := v1.ToDict().members, v2.ToDict().members;
    forall i | 0 <= i < |ms1|
      ensures ms1[i].1 == ms2[i].1 || (Scalar(ms1[i].1) && Scalar(ms2[i].1))
    {
      if i == 5 {
        assert ms1[5].1 == ms2[5].1;
      }
    }
  }

  /** Changing the code, description, result, severity or blocking flag of
      one verdict changes the bytes compute_verdict_hash digests (its
      evidence left alone). */
  lemma VerdictHashSensitive(vs1: seq<Verdict>, vs2: seq<Verdict>, p: nat)
    requires |vs1| == |vs2| && p < |vs1|
    requires forall q :: 0 <= q < |vs1| && q != p ==> vs1[q] == vs2[q]
    requires vs1[p].evidence == vs2[p].evidence
    requires vs1[p] != vs2[p]
    ensures VerdictHashInput(vs1) != VerdictHashInput(vs2)
  {
    VerdictListTextSensitive(vs1, vs2, p);
    var t1, t2 := Dumps(JArr(Map(VerdictDict, vs1)), Spaced), Dumps(JArr(Map(VerdictDict, vs2)), Spaced);
    SpacedAscii();
    Utf8AsciiInjective(t1, t2);
  }

  /** The same change shows in the serialised list of verdict dicts. */
  lemma VerdictListTextSensitive(vs1: seq<Verdict>, vs2: seq<Verdict>, p: nat)
    requires |vs1| == |vs2| && p < |vs1|
    requires forall q :: 0 <= q < |vs1| && q != p ==> vs1[q] == vs2[q]
    requires vs1[p].evidence == vs2[p].evidence
    requires vs1[p] != vs2[p]
    ensures Dumps(JArr(Map(VerdictDict, vs1)), Spaced) != Dumps(JArr(Map(VerdictDict, vs2)), Spaced)
  {
    VerdictTextSensitive(vs1[p], vs2[p]);
    MapAgreesOff(VerdictDict, vs1, vs2, p);
    ArrayElementSensitive(Map(VerdictDict, vs1), Map(VerdictDict, vs2), p, Spaced);
  }

  lemma SpacedAscii()
    ensures AsciiText(Spaced.item) && AsciiText(Spaced.key)
  {
  }
}
