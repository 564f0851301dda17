/** The hard-coded APA 7th edition layout rules
    (core/amanecer/apa7_layout/rules.py): a fixed table of eleven rules, the
    valid fonts with the size each requires, and the margin, spacing and
    tolerance constants. */
module Apa7Rules {
  import opened Wrappers

  /** The eleven rule codes; `Text()` is the code as the table writes it. */
  datatype RuleCode =
    | MarginTopCode | MarginBottomCode | MarginLeftCode | MarginRightCode
    | FontValidCode
    | FontSizeTnrCode | FontSizeCalibriCode | FontSizeArialCode | FontSizeGeorgiaCode
    | LineSpacingCode | PageNumberingCode
  {
    function Text(): (t: string)
      ensures |t| > 5 && t[..5] == "APA7-"
    {
      match this
      case MarginTopCode => "APA7-MARGIN-TOP"
      case MarginBottomCode => "APA7-MARGIN-BOTTOM"
      case MarginLeftCode => "APA7-MARGIN-LEFT"
      case MarginRightCode => "APA7-MARGIN-RIGHT"
      case FontValidCode => "APA7-FONT-VALID"
      case FontSizeTnrCode => "APA7-FONT-SIZE-TNR"
      case FontSizeCalibriCode => "APA7-FONT-SIZE-CALIBRI"
      case FontSizeArialCode => "APA7-FONT-SIZE-ARIAL"
      case FontSizeGeorgiaCode => "APA7-FONT-SIZE-GEORGIA"
      case LineSpacingCode => "APA7-LINE-SPACING"
      case PageNumberingCode => "APA7-PAGE-NUMBERING"
    }
  }

  /** Different codes are written differently. */
  lemma TextInjective(a: RuleCode, b: RuleCode)
    requires a != b
    ensures a.Text() != b.Text()
  {
    var s, t := a.Text(), b.Text();
    if |s| == |t| {
      assert s[5] != t[5] || s[8] != t[8] || s[10] != t[10] || s[13] != t[13] || s[15] != t[15];
    }
  }

  datatype Rule = Rule(ruleCode: RuleCode, description: string, severity: string, blocking: bool)

  /** APA7_LAYOUT_RULES, in table order. */
  const LayoutRules: seq<Rule> := [
    TableRule(MarginTopCode), TableRule(MarginBottomCode), TableRule(MarginLeftCode), TableRule(MarginRightCode),
    TableRule(FontValidCode),
    TableRule(FontSizeTnrCode), TableRule(FontSizeCalibriCode), TableRule(FontSizeArialCode), TableRule(FontSizeGeorgiaCode),
    TableRule(LineSpacingCode), TableRule(PageNumberingCode)
  ]

  /** VALID_FONTS, in its insertion order: font name and required size in points. */
  const ValidFonts: seq<(string, real)> := [
    ("Times New Roman", 12.0),
    ("Calibri", 11.0),
    ("Arial", 11.0),
    ("Georgia", 11.0)
  ]

  /** Margin in inches. */
  const RequiredMargin: real := 1.0

  const RequiredLineSpacing: real := 2.0

  /** Allowed distance from the required margin, in inches. */
  const MarginTolerance: real := 0.01

  /** `list(VALID_FONTS.keys())`. */
  function FontNames(): (names: seq<string>)
    ensures |names| == |ValidFonts|
    ensures forall i :: 0 <= i < |ValidFonts| ==> names[i] == ValidFonts[i].0
  {
    ["Times New Roman", "Calibri", "Arial", "Georgia"]
  }

  lemma FontNamesListed()
    ensures FontNames() == ["Times New Roman", "Calibri", "Arial", "Georgia"]
  {
  }

  /** `VALID_FONTS.get(name)`. */
  function RequiredSize(name: string): (size: Option<real>)
    ensures size.Some? <==> name in FontNames()
    ensures size.Some? ==> exists i :: 0 <= i < |ValidFonts| && ValidFonts[i] == (name, size.value)
  {
    FontNamesListed();
    if name == "Times New Roman" then Some(12.0)
    else if name == "Calibri" then Some(11.0)
    else if name == "Arial" then Some(11.0)
    else if name == "Georgia" then Some(11.0)
    else None
  }

  /** The validator's `rule_code_map`: the size rule of each valid font. */
  function SizeRuleCode(name: string): (code: Option<RuleCode>)
    ensures code.Some? <==> name in FontNames()
  {
    FontNamesListed();
    if name == "Times New Roman" then Some(FontSizeTnrCode)
    else if name == "Calibri" then Some(FontSizeCalibriCode)
    else if name == "Arial" then Some(FontSizeArialCode)
    else if name == "Georgia" then Some(FontSizeGeorgiaCode)
    else None
  }

  /** `next(r for r in rules if r.rule_code == code)`: the first rule with
      the code, or None where Python's `next` would raise. */
  function FindRule(rules: seq<Rule>, code: RuleCode): (r: Option<Rule>)
    ensures r.None? <==> forall i :: 0 <= i < |rules| ==> rules[i].ruleCode != code
    ensures r.Some? ==> exists i :: 0 <= i < |rules| && rules[i] == r.value &&
                          r.value.ruleCode == code &&
                          forall j :: 0 <= j < i ==> rules[j].ruleCode != code
  {
    if rules == [] then None
    else if rules[0].ruleCode == code then Some(rules[0])
    else
      var r := FindRule(rules[1..], code);
      assert r.Some? ==> exists i :: 0 <= i < |rules| && rules[i] == r.value &&
                           r.value.ruleCode == code &&
                           forall j :: 0 <= j < i ==> rules[j].ruleCode != code by {
        if r.Some? {
          var i :| 0 <= i < |rules[1..]| && rules[1..][i] == r.value &&
                   forall j :: 0 <= j < i ==> rules[1..][j].ruleCode != code;
          assert rules[i + 1] == r.value;
          assert forall j :: 0 <= j < i + 1 ==> rules[j].ruleCode != code by {
            forall j | 0 <= j < i + 1
              ensures rules[j].ruleCode != code
            {
              if j > 0 {
                assert rules[j] == rules[1..][j - 1];
              }
            }
          }
        }
      }
      r
  }

  // ---------------------------------------------------------------------------
  // Properties of the table

  /** Eleven rules, no code twice, all of them blocking. */
  lemma TableShape()
    ensures |LayoutRules| == 11
    ensures forall i, j :: 0 <= i < j < |LayoutRules| ==> LayoutRules[i].ruleCode != LayoutRules[j].ruleCode
    ensures forall i :: 0 <= i < |LayoutRules| ==> LayoutRules[i].blocking
  {
  }

  /** Every rule is critical except page numbering, which is an error. */
  lemma TableSeverities()
    ensures forall i :: 0 <= i < |LayoutRules| ==>
              LayoutRules[i].severity == (if LayoutRules[i].ruleCode == PageNumberingCode then "error" else "critical")
  {
  }

  /** The position of a code's rule in the table. */
  function RuleIndex(code: RuleCode): (i: nat)
    ensures i < |LayoutRules| && LayoutRules[i].ruleCode == code && LayoutRules[i] == TableRule(code)
  {
    match code
    case MarginTopCode => 0
    case MarginBottomCode => 1
    case MarginLeftCode => 2
    case MarginRightCode => 3
    case FontValidCode => 4
    case FontSizeTnrCode => 5
    case FontSizeCalibriCode => 6
    case FontSizeArialCode => 7
    case FontSizeGeorgiaCode => 8
    case LineSpacingCode => 9
    case PageNumberingCode => 10
  }

  /** The rule of the table that carries `code`. */
  function TableRule(code: RuleCode): (rule: Rule)
    ensures rule.ruleCode == code
  {
    match code
    case MarginTopCode => Rule(MarginTopCode, "Top margin must be exactly 1 inch", "critical", true)
    case MarginBottomCode => Rule(MarginBottomCode, "Bottom margin must be exactly 1 inch", "critical", true)
    case MarginLeftCode => Rule(MarginLeftCode, "Left margin must be exactly 1 inch", "critical", true)
    case MarginRightCode => Rule(MarginRightCode, "Right margin must be exactly 1 inch", "critical", true)
    case FontValidCode => Rule(FontValidCode, "Font must be Times New Roman, Calibri, Arial, or Georgia", "critical", true)
    case FontSizeTnrCode => Rule(FontSizeTnrCode, "Times New Roman must be 12pt", "critical", true)
    case FontSizeCalibriCode => Rule(FontSizeCalibriCode, "Calibri must be 11pt", "critical", true)
    case FontSizeArialCode => Rule(FontSizeArialCode, "Arial must be 11pt", "critical", true)
    case FontSizeGeorgiaCode => Rule(FontSizeGeorgiaCode, "Georgia must be 11pt", "critical", true)
    case LineSpacingCode => Rule(LineSpacingCode, "Line spacing must be double (2.0)", "critical", true)
    case PageNumberingCode => Rule(PageNumberingCode, "Page numbering must be present", "error", true)
  }

  /** Every code has a rule in the table, so the search never runs out, and
      the rule it finds is TableRule's. */
  lemma TableRuleIsFound(code: RuleCode)
    ensures FindRule(LayoutRules, code) == Some(TableRule(code))
  {
    FindRuleInTable(RuleIndex(code));
  }

  /** Since codes are distinct, looking up a rule's code finds that rule. */
  lemma FindRuleInTable(i: nat)
    requires i < |LayoutRules|
    ensures FindRule(LayoutRules, LayoutRules[i].ruleCode) == Some(LayoutRules[i])
  {
    TableShape();
  }

  /** Times New Roman needs 12 points; Calibri, Arial and Georgia 11. */
  lemma FontSizes()
    ensures RequiredSize("Times New Roman") == Some(12.0)
    ensures RequiredSize("Calibri") == Some(11.0) && RequiredSize("Arial") == Some(11.0)
    ensures RequiredSize("Georgia") == Some(11.0)
  {
  }

  /** Each valid font has its own size rule, and the size rule's
      description names the size VALID_FONTS requires. */
  lemma EveryFontHasSizeRule(name: string)
    requires name in FontNames()
    ensures SizeRuleCode(name).Some? && RequiredSize(name).Some?
    ensures forall other :: other in FontNames() && other != name ==> SizeRuleCode(other) != SizeRuleCode(name)
  {
    FontNamesListed();
  }
}
