/** The APA7 layout stage (core/amanecer/apa7_layout/stage.py): extracts
    the layout facts from the context, validates them, and reports a
    blocking stage result holding one verdict dict per rule, the rule counts
    and the verdict hash. An exception on the way becomes a technical-error
    result instead. */
module Apa7Stage {
  import opened Wrappers
  import opened Sorting
  import opened CanonicalJson
  import opened Hashes
  import opened Apa7Rules
  import opened Apa7Extractor
  import opened Apa7Validator

  /** The `metadata` dict: empty after a technical error. */
  datatype StageMetadata =
    | NoMetadata
    | Metadata(verdictHash: string, totalRules: nat, passedRules: nat, failedRules: nat)

  /** The dict the stage returns. */
  datatype LayoutStageResult = LayoutStageResult(
    ok: bool,
    blocking: bool,
    output: seq<Json>,
    error: Option<string>,
    metadata: StageMetadata)

  const TechnicalErrorPrefix := "Technical error in APA7 layout validation: "

  /** `sum(1 for v in verdicts if v.result == result)`. */
  function CountResult(vs: seq<Verdict>, result: Outcome): (n: nat)
    ensures n <= |vs|
    ensures n == |vs| <==> forall k :: 0 <= k < |vs| ==> vs[k].result == result
    ensures n == 0 <==> forall k :: 0 <= k < |vs| ==> vs[k].result != result
  {
    if vs == [] then 0
    else
      var rest := CountResult(vs[1..], result);
      assert forall k :: 1 <= k < |vs| ==> vs[k] == vs[1..][k - 1];
      (if vs[0].result == result then 1 else 0) + rest
  }

  /** Every result is PASS or FAIL, so the two counts add up to the total. */
  lemma {:induction false} CountsAddUp(vs: seq<Verdict>)
    ensures CountResult(vs, Pass) + CountResult(vs, Fail) == |vs|
  {
    if vs != [] {
      assert forall k :: 0 <= k < |vs[1..]| ==> vs[1..][k] == vs[k + 1];
      CountsAddUp(vs[1..]);
    }
  }

  /** The result of the `except` branch. */
  function TechnicalError(e: string): (r: LayoutStageResult)
    ensures !r.ok && r.blocking && r.output == [] && r.metadata == NoMetadata && r.error.Some?
    ensures |TechnicalErrorPrefix| <= |r.error.value| && r.error.value[..|TechnicalErrorPrefix|] == TechnicalErrorPrefix
    ensures r.error.value[|TechnicalErrorPrefix|..] == e
  {
    LayoutStageResult(false, true, [], Some(TechnicalErrorPrefix + e), NoMetadata)
  }

  /** The result for verdicts that were produced: ok when all passed, the
      verdict dicts as output, and the hash and counts as metadata. */
  function Report(vs: seq<Verdict>): (r: LayoutStageResult)
    ensures r.blocking && r.error.None? && r.metadata.Metadata?
    ensures |r.output| == r.metadata.totalRules == r.metadata.passedRules + r.metadata.failedRules
    ensures r.ok <==> r.metadata.passedRules == r.metadata.totalRules
    ensures r.ok <==> r.metadata.failedRules == 0
    ensures |r.metadata.verdictHash| == 64 && IsLowerHex(r.metadata.verdictHash)
    ensures |r.output| == |vs| && forall k :: 0 <= k < |vs| ==> r.output[k] == vs[k].ToDict()
    ensures r.metadata.verdictHash == ComputeVerdictHash(vs)
    ensures r.metadata.passedRules == CountResult(vs, Pass) && r.metadata.failedRules == CountResult(vs, Fail)
    ensures r.ok <==> forall k :: 0 <= k < |vs| ==> vs[k].result == Pass
  {
    CountsAddUp(vs);
    LayoutStageResult(AllPassed(vs), true, Map(VerdictDict, vs), None,
                      Metadata(ComputeVerdictHash(vs), |vs|, CountResult(vs, Pass), CountResult(vs, Fail)))
  }

  /** The stage after extraction: validate, then report or fail. */
  function EvaluateFacts(facts: LayoutFacts): (r: LayoutStageResult)
    ensures r.blocking
    ensures r.error.None? <==> LayoutVerdicts(facts).Ok?
    ensures LayoutVerdicts(facts).Err? ==> r.error == Some(TechnicalErrorPrefix + LayoutVerdicts(facts).error)
    ensures r.ok <==> Compliant(facts)
    ensures r.error.None? ==> r.metadata.Metadata? && |r.output| == r.metadata.totalRules ==
                              r.metadata.passedRules + r.metadata.failedRules
    ensures LayoutVerdicts(facts).Ok? ==> r == Report(LayoutVerdicts(facts).value)
  {
    AllPassIffCompliant(facts);
    var verdicts := LayoutVerdicts(facts);
    if verdicts.Err? then TechnicalError(verdicts.error)
    else Report(verdicts.value)
  }

  /** apa7_layout_stage. */
  function Apa7LayoutStage(context: Json): (r: LayoutStageResult)
    ensures r.blocking
    ensures r.ok <==> ExtractLayoutFacts(context).Ok? && Compliant(ExtractLayoutFacts(context).value)
    ensures r.error.Some? <==>
              ExtractLayoutFacts(context).Err? || LayoutVerdicts(ExtractLayoutFacts(context).value).Err?
    ensures r.error.Some? ==> !r.ok && r.output == [] && r.metadata == NoMetadata &&
                              |TechnicalErrorPrefix| <= |r.error.value| &&
                              r.error.value[..|TechnicalErrorPrefix|] == TechnicalErrorPrefix
    ensures ExtractLayoutFacts(context).Err? ==> r.error == Some(TechnicalErrorPrefix + ExtractLayoutFacts(context).error)
    ensures ExtractLayoutFacts(context).Ok? && LayoutVerdicts(ExtractLayoutFacts(context).value).Err? ==>
              r.error == Some(TechnicalErrorPrefix + LayoutVerdicts(ExtractLayoutFacts(context).value).error)
    ensures ExtractLayoutFacts(context).Ok? && LayoutVerdicts(ExtractLayoutFacts(context).value).Ok? ==>
              r == Report(LayoutVerdicts(ExtractLayoutFacts(context).value).value)
  {
    var facts := ExtractLayoutFacts(context);
    if facts.Err? then TechnicalError(facts.error)
    else EvaluateFacts(facts.value)
  }

  // ---------------------------------------------------------------------------
  // The scenarios of the integration tests

  /** The context of a test whose layout dict holds the given facts. */
  function Context(facts: LayoutFacts): Json {
    TestContext(LayoutDictOf(facts))
  }

  lemma StageOnFacts(facts: LayoutFacts)
    ensures Apa7LayoutStage(Context(facts)) == EvaluateFacts(facts)
  {
    ExtractRoundTrip(facts);
  }

  /** One failed verdict is enough for the stage to fail, without a
      technical error and with at least one failure counted. */
  lemma FailedVerdictFailsStage(facts: LayoutFacts, k: nat)
    requires LayoutVerdicts(facts).Ok? && k < |LayoutVerdicts(facts).value|
    requires LayoutVerdicts(facts).value[k].result == Fail
    ensures var r := Apa7LayoutStage(Context(facts));
      !r.ok && r.error.None? && r.metadata.Metadata? && r.metadata.failedRules > 0
  {
    StageOnFacts(facts);
    if Compliant(facts) {
      CompliantPasses(facts);
      assert false;
    }
  }

  /** When every verdict fails, each one is counted as a failure. */
  lemma EveryVerdictFailedCounted(facts: LayoutFacts)
    requires LayoutVerdicts(facts).Ok? && |LayoutVerdicts(facts).value| > 0
    requires forall k :: 0 <= k < |LayoutVerdicts(facts).value| ==> LayoutVerdicts(facts).value[k].result == Fail
    ensures var r := EvaluateFacts(facts);
      !r.ok && r.error.None? && r.metadata.Metadata? &&
      r.metadata.totalRules == r.metadata.failedRules == |LayoutVerdicts(facts).value| && r.metadata.passedRules == 0
  {
  }

  /** A verdict dict that reports a failure of `code`, as the tests read it:
      `d["rule_code"]` and `d["result"] == "FAIL"`. */
  predicate ReportsFailure(d: Json, code: RuleCode) {
    d.JObj? && |d.members| == 6 &&
    d.members[0] == ("rule_code", JStr(code.Text())) &&
    d.members[2] == ("result", JStr("FAIL"))
  }

  /** A failure reported with `d["blocking"] is True`. */
  predicate ReportsBlockingFailure(d: Json, code: RuleCode) {
    ReportsFailure(d, code) && d.members[4] == ("blocking", JBool(true))
  }

  /** A verdict dict whose first evidence dict expected `expected`, found
      `actual` and did not match. */
  predicate ReportsMismatch(d: Json, expected: Json, actual: Json) {
    d.JObj? && |d.members| == 6 && d.members[5].0 == "evidence" && d.members[5].1.JArr? &&
    var items := d.members[5].1.items;
    |items| > 0 && items[0].JObj? && |items[0].members| == 5 &&
    items[0].members[2] == ("expected_value", expected) &&
    items[0].members[3] == ("actual_value", actual) &&
    items[0].members[4] == ("match", JBool(false))
  }

  /** The dict of a failed verdict reports the failure, and its blocking
      flag when it is blocking. */
  lemma FailedVerdictDict(v: Verdict)
    requires v.result == Fail
    ensures ReportsFailure(v.ToDict(), v.ruleCode)
    ensures v.blocking ==> ReportsBlockingFailure(v.ToDict(), v.ruleCode)
  {
    assert Keys(v.ToDict().members) == VerdictKeys;
  }

  /** A verdict dict reporting `d["result"] == "PASS"`. */
  predicate ReportsPass(d: Json) {
    d.JObj? && |d.members| == 6 && d.members[2] == ("result", JStr("PASS"))
  }

  lemma PassedVerdictDict(v: Verdict)
    requires v.result == Pass
    ensures ReportsPass(v.ToDict())
  {
    assert Keys(v.ToDict().members) == VerdictKeys;
  }

  /** The dict of a verdict whose first evidence did not match carries that
      evidence's expected and actual values. */
  lemma MismatchDict(v: Verdict)
    requires |v.evidence| > 0 && !v.evidence[0].matched
    ensures ReportsMismatch(v.ToDict(), v.evidence[0].expectedValue, v.evidence[0].actualValue)
  {
    assert Keys(v.ToDict().members) == VerdictKeys;
    assert Keys(v.evidence[0].ToDict().members) == ["rule_code", "fact_name", "expected_value", "actual_value", "match"];
  }

  /** When validation raises nothing, the stage outputs the dict of each
      verdict, in the validator's order. */
  lemma StageOutput(facts: LayoutFacts)
    requires LayoutVerdicts(facts).Ok?
    ensures var r := Apa7LayoutStage(Context(facts)); var vs := LayoutVerdicts(facts).value;
      |r.output| == |vs| && forall k :: 0 <= k < |vs| ==> r.output[k] == vs[k].ToDict()
  {
    StageOnFacts(facts);
  }

  /** Once the facts are extracted, the stage is their evaluation. */
  lemma StageOfExtracted(context: Json)
    requires ExtractLayoutFacts(context).Ok?
    ensures Apa7LayoutStage(context) == EvaluateFacts(ExtractLayoutFacts(context).value)
  {
  }

  /** One inch margins, Times New Roman 12, double spacing, page numbers. */
  const Apa7Document := LayoutFacts(JNum(1.0), JNum(1.0), JNum(1.0), JNum(1.0),
                                    JStr("Times New Roman"), JNum(12.0), JNum(2.0), JBool(true))

  lemma TnrFont()
    ensures ValidFont(Apa7Document) && RequiredSize("Times New Roman") == Some(12.0)
    ensures SizeRuleCode("Times New Roman") == Some(FontSizeTnrCode)
  {
    FontNamesListed();
  }

  /** A compliant document passes all eight rules without error. */
  lemma CorrectDocumentPasses(facts: LayoutFacts)
    requires facts == Apa7Document
    ensures var r := Apa7LayoutStage(Context(facts));
      r.ok && r.error.None? && r.metadata.failedRules == 0 &&
      r.metadata.passedRules == r.metadata.totalRules == 8
  {
    StageOnFacts(facts);
    TnrFont();
    assert Compliant(facts);
    VerdictOrder(facts);
  }

  /** Compliant facts give a stage output in which every dict reports PASS. */
  lemma CompliantOutputPasses(facts: LayoutFacts)
    requires Compliant(facts)
    ensures var r := Apa7LayoutStage(Context(facts));
      forall k :: 0 <= k < |r.output| ==> ReportsPass(r.output[k])
  {
    CompliantRaisesNothing(facts);
    CompliantPasses(facts);
    StageOutput(facts);
    var r, vs := Apa7LayoutStage(Context(facts)), LayoutVerdicts(facts).value;
    forall k | 0 <= k < |r.output|
      ensures ReportsPass(r.output[k])
    {
      assert r.output[k] == vs[k].ToDict() && vs[k].result == Pass;
      PassedVerdictDict(vs[k]);
    }
  }

  /** Every output dict of the compliant document reports PASS. */
  lemma CorrectDocumentOutput(facts: LayoutFacts)
    requires facts == Apa7Document
    ensures var r := Apa7LayoutStage(Context(facts));
      forall k :: 0 <= k < |r.output| ==> ReportsPass(r.output[k])
  {
    TnrFont();
    assert Compliant(facts);
    CompliantOutputPasses(facts);
  }

  /** Calibri at 11 points is as good as Times New Roman at 12. */
  lemma CalibriElevenPasses(facts: LayoutFacts)
    requires facts == Apa7Document.(fontName := JStr("Calibri"), fontSize := JNum(11.0))
    ensures Apa7LayoutStage(Context(facts)).ok
  {
    StageOnFacts(facts);
    FontNamesListed();
    FontSizes();
    assert ValidFont(facts);
    assert Compliant(facts);
  }

  /** Margins of 1.005 and 0.995 inches are within the tolerance. */
  lemma MarginWithinTolerancePasses(facts: LayoutFacts)
    requires facts == Apa7Document.(marginTop := JNum(1.005), marginBottom := JNum(0.995))
    ensures Apa7LayoutStage(Context(facts)).ok
  {
    StageOnFacts(facts);
    TnrFont();
    assert Compliant(facts);
  }

  /** A top margin of 1.02 inches is outside the tolerance, and one of 0.75
      fails MARGIN-TOP, a blocking rule, without a technical error. */
  lemma WrongTopMarginFails(facts: LayoutFacts, top: real)
    requires top == 1.02 || top == 0.75
    requires facts == Apa7Document.(marginTop := JNum(top))
    ensures var r := Apa7LayoutStage(Context(facts));
      !r.ok && r.blocking && r.error.None?
    ensures LayoutVerdicts(facts).Ok? && |LayoutVerdicts(facts).value| > 0 &&
      var v := LayoutVerdicts(facts).value[0];
      v.ruleCode == MarginTopCode && v.result == Fail && v.blocking
  {
    StageOnFacts(facts);
    assert !MarginPasses(facts.marginTop);
    assert !Compliant(facts);
    NoTechnicalError(facts);
    FirstVerdictIsTopMargin(facts);
  }

  /** The first output dict is the failing, blocking MARGIN-TOP verdict. */
  lemma WrongTopMarginOutput(facts: LayoutFacts, top: real)
    requires top == 1.02 || top == 0.75
    requires facts == Apa7Document.(marginTop := JNum(top))
    ensures var r := Apa7LayoutStage(Context(facts));
      |r.output| > 0 && ReportsBlockingFailure(r.output[0], MarginTopCode)
  {
    WrongTopMarginFails(facts, top);
    StageOutput(facts);
    FailedVerdictDict(LayoutVerdicts(facts).value[0]);
  }

  /** Times New Roman at 11 points fails the stage, without a technical
      error. */
  lemma WrongFontSizeFails(facts: LayoutFacts)
    requires facts == Apa7Document.(fontSize := JNum(11.0))
    ensures var r := Apa7LayoutStage(Context(facts));
      !r.ok && r.error.None?
  {
    TnrFont();
    ValidFontSizeVerdict(facts);
    FailedVerdictFailsStage(facts, 5);
  }

  /** The verdict behind it is FONT-SIZE-TNR, whose evidence records 12.0
      expected, 11.0 found, no match. */
  lemma WrongFontSizeEvidence(facts: LayoutFacts)
    requires facts == Apa7Document.(fontSize := JNum(11.0))
    ensures LayoutVerdicts(facts).Ok? && |LayoutVerdicts(facts).value| == 8 &&
      var v := LayoutVerdicts(facts).value[5];
      v.ruleCode == FontSizeTnrCode && v.result == Fail &&
      v.evidence[0].expectedValue == JNum(12.0) && v.evidence[0].actualValue == JNum(11.0) &&
      !v.evidence[0].matched
  {
    TnrFont();
    ValidFontSizeVerdict(facts);
  }

  /** The sixth output dict is the failing FONT-SIZE-TNR verdict, whose first
      evidence dict expects 12.0, finds 11.0 and does not match. */
  lemma WrongFontSizeOutput(facts: LayoutFacts)
    requires facts == Apa7Document.(fontSize := JNum(11.0))
    ensures var r := Apa7LayoutStage(Context(facts));
      |r.output| == 8 && ReportsFailure(r.output[5], FontSizeTnrCode) &&
      ReportsMismatch(r.output[5], JNum(12.0), JNum(11.0))
  {
    WrongFontSizeEvidence(facts);
    StageOutput(facts);
    var v := LayoutVerdicts(facts).value[5];
    FailedVerdictDict(v);
    MismatchDict(v);
  }

  /** Comic Sans is not a valid font: FONT-VALID fails. */
  lemma InvalidFontFails(facts: LayoutFacts)
    requires facts == Apa7Document.(fontName := JStr("Comic Sans"))
    ensures var r := Apa7LayoutStage(Context(facts));
      !r.ok && r.error.None?
    ensures LayoutVerdicts(facts).Ok? && |LayoutVerdicts(facts).value| == 7 &&
      LayoutVerdicts(facts).value[4].ruleCode == FontValidCode && LayoutVerdicts(facts).value[4].result == Fail
  {
    assert !ValidFont(facts) by {
      FontNamesListed();
    }
    NoTechnicalError(facts);
    FontValidVerdictAt(facts);
    FailedVerdictFailsStage(facts, 4);
  }

  /** Spacing of 1.5 fails LINE-SPACING. */
  lemma OneAndAHalfSpacingFails(facts: LayoutFacts)
    requires facts == Apa7Document.(lineSpacing := JNum(1.5))
    ensures !Apa7LayoutStage(Context(facts)).ok
    ensures LayoutVerdicts(facts).Ok? && |LayoutVerdicts(facts).value| == 8 &&
      LayoutVerdicts(facts).value[6].ruleCode == LineSpacingCode && LayoutVerdicts(facts).value[6].result == Fail
  {
    TnrFont();
    ValidFontClosingVerdicts(facts);
    FailedVerdictFailsStage(facts, 6);
  }

  /** A document without page numbers fails PAGE-NUMBERING. */
  lemma MissingPageNumbersFail(facts: LayoutFacts)
    requires facts == Apa7Document.(pageNumbering := JBool(false))
    ensures !Apa7LayoutStage(Context(facts)).ok
    ensures LayoutVerdicts(facts).Ok? && |LayoutVerdicts(facts).value| == 8 &&
      LayoutVerdicts(facts).value[7].ruleCode == PageNumberingCode && LayoutVerdicts(facts).value[7].result == Fail
  {
    TnrFont();
    ValidFontClosingVerdicts(facts);
    FailedVerdictFailsStage(facts, 7);
  }

  /** A document with none of the eight values fails all seven rules
      checked, with no technical error. */
  lemma NoFactsFailEveryRule(facts: LayoutFacts)
    requires facts == LayoutFacts()
    ensures var r := EvaluateFacts(facts);
      !r.ok && r.error.None? && r.metadata.totalRules == 7 && r.metadata.failedRules == 7
  {
    WrongEverywhereFailsEveryRule(facts);
    EveryVerdictFailedCounted(facts);
  }

  /** An empty layout dict is not an error: seven verdicts, every one FAIL. */
  lemma EmptyLayoutFailsEveryRule(layout: seq<(string, Json)>)
    requires |layout| == 0
    ensures var r := Apa7LayoutStage(TestContext(layout));
      !r.ok && r.error.None? && r.metadata.totalRules == 7 && r.metadata.failedRules == 7
  {
    EmptyLayoutAllNull(layout);
    StageOfExtracted(TestContext(layout));
    NoFactsFailEveryRule(ExtractLayoutFacts(TestContext(layout)).value);
  }
}
