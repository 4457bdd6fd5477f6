/** The table tests of scale_rule_test.go, stated about the model. */
module Scenarios {
  import opened Wrappers
  import opened ParseFloat
  import opened Rule
  import opened Combiner
  import opened CombineFunctions

  /** The five-rule set of the combiner tests. */
  function SampleRules(): (rules: seq<string>)
    ensures |rules| == 5
  {
    ["<200?1:1.1", ">200?3.5:2.0", "=15?3:2.3", "!100?10:5", "@100-200?15:89"]
  }

  // The numeric literals of the tests, read digit by digit.

  lemma OneDigit(s: string)
    requires |s| == 1 && IsDigit(s[0])
    ensures ParseNum(s) == Some(DigitValue(s[0]) as real)
  {
    ParseDigits(s);
    assert s[..0] == [];
  }

  lemma TwoDigits(s: string)
    requires |s| == 2 && IsDigit(s[0]) && IsDigit(s[1])
    ensures ParseNum(s) == Some((10 * DigitValue(s[0]) + DigitValue(s[1])) as real)
  {
    ParseDigits(s);
    DigitsOne(s[..1]);
    DigitsSnoc(s[..1], s[1]);
    assert s == s[..1] + [s[1]];
  }

  lemma ThreeDigits(s: string)
    requires |s| == 3 && IsDigit(s[0]) && IsDigit(s[1]) && IsDigit(s[2])
    ensures ParseNum(s) == Some((100 * DigitValue(s[0]) + 10 * DigitValue(s[1]) + DigitValue(s[2])) as real)
  {
    ParseDigits(s);
    DigitsOne(s[..1]);
    DigitsSnoc(s[..1], s[1]);
    assert s[..2] == s[..1] + [s[1]];
    DigitsSnoc(s[..2], s[2]);
    assert s == s[..2] + [s[2]];
  }

  lemma DigitsOne(s: string)
    requires |s| == 1 && IsDigit(s[0])
    ensures DigitsValue(s) == DigitValue(s[0])
  {
    assert s[..0] == [];
  }

  lemma DigitsSnoc(p: string, c: char)
    requires AllDigits(p) && IsDigit(c)
    ensures DigitsValue(p + [c]) == 10 * DigitsValue(p) + DigitValue(c)
  {
    assert (p + [c])[..|p|] == p;
  }

  lemma OneDecimal(s: string)
    requires |s| == 3 && IsDigit(s[0]) && s[1] == '.' && IsDigit(s[2])
    ensures ParseNum(s) == Some(DigitValue(s[0]) as real + DigitValue(s[2]) as real / 10.0)
  {
    var w, f := [s[0]], [s[2]];
    assert s == w + "." + f;
    assert w[..0] == [] && f[1..] == [];
    DecimalText(w, f);
  }

  lemma TextSmaller200()
    ensures "<200?1:1.1" == RuleText('<', "200", "1", "1.1")
  {
    var s := RuleText('<', "200", "1", "1.1");
    assert forall i :: 0 <= i < |s| ==> s[i] == "<200?1:1.1"[i];
  }

  lemma TextGreater200()
    ensures ">200?3.5:2.0" == RuleText('>', "200", "3.5", "2.0")
  {
    var s := RuleText('>', "200", "3.5", "2.0");
    assert forall i :: 0 <= i < |s| ==> s[i] == ">200?3.5:2.0"[i];
  }

  lemma TextEqual15()
    ensures "=15?3:2.3" == RuleText('=', "15", "3", "2.3")
  {
    var s := RuleText('=', "15", "3", "2.3");
    assert forall i :: 0 <= i < |s| ==> s[i] == "=15?3:2.3"[i];
  }

  lemma TextNotEqual100()
    ensures "!100?10:5" == RuleText('!', "100", "10", "5")
  {
    var s := RuleText('!', "100", "10", "5");
    assert forall i :: 0 <= i < |s| ==> s[i] == "!100?10:5"[i];
  }

  lemma TextBetween100And200()
    ensures "@100-200?15:89" == RuleText('@', "100" + "-" + "200", "15", "89")
  {
    var s := RuleText('@', "100" + "-" + "200", "15", "89");
    assert forall i :: 0 <= i < |s| ==> s[i] == "@100-200?15:89"[i];
  }

  lemma Smaller200(value: real)
    ensures Evaluate("<200?1:1.1", value) == if value < 200.0 then Outcome(1.0, None, true) else Outcome(1.1, None, false)
  {
    ThreeDigits("200"); OneDigit("1"); OneDecimal("1.1");
    TextSmaller200();
    EvaluateComparison('<', "200", "1", "1.1", value);
  }

  lemma Greater200(value: real)
    ensures Evaluate(">200?3.5:2.0", value) == if value > 200.0 then Outcome(3.5, None, true) else Outcome(2.0, None, false)
  {
    ThreeDigits("200"); OneDecimal("3.5"); OneDecimal("2.0");
    TextGreater200();
    EvaluateComparison('>', "200", "3.5", "2.0", value);
  }

  lemma Equal15(value: real)
    ensures Evaluate("=15?3:2.3", value) == if value == 15.0 then Outcome(3.0, None, true) else Outcome(2.3, None, false)
  {
    TwoDigits("15"); OneDigit("3"); OneDecimal("2.3");
    TextEqual15();
    EvaluateComparison('=', "15", "3", "2.3", value);
  }

  lemma NotEqual100(value: real)
    ensures Evaluate("!100?10:5", value) == if value != 100.0 then Outcome(10.0, None, true) else Outcome(5.0, None, false)
  {
    ThreeDigits("100"); TwoDigits("10"); OneDigit("5");
    TextNotEqual100();
    EvaluateComparison('!', "100", "10", "5", value);
  }

  /** The range test: 15 at the lower bound 100, 89 at 250, and, because
      the upper bound is the lower bound again, 89 at 200 and at 150 too. */
  lemma Between100And200(value: real)
    ensures Evaluate("@100-200?15:89", value) == if value == 100.0 then Outcome(15.0, None, true) else Outcome(89.0, None, false)
  {
    TextBetween100And200();
    RangeRule("100", "200", "15", "89", value);
  }

  lemma RangeRule(lo: string, hi: string, t: string, f: string, value: real)
    requires lo == "100" && hi == "200" && t == "15" && f == "89"
    ensures Evaluate(RuleText('@', lo + "-" + hi, t, f), value)
         == if value == 100.0 then Outcome(15.0, None, true) else Outcome(89.0, None, false)
  {
    ThreeDigits(lo); TwoDigits(t); TwoDigits(f);
    EvaluateRange(lo, hi, t, f, value);
  }

  /** TestRule_result: each rule of the table at its test value. */
  lemma RuleTable()
    ensures Evaluate("<200?1:1.1", 10.0).value == 1.0 && Evaluate("<200?1:1.1", 1000.0).value == 1.1
    ensures Evaluate(">200?3.5:2.0", 10.0).value == 2.0 && Evaluate(">200?3.5:2.0", 1000.0).value == 3.5
    ensures Evaluate("=15?3:2.3", 15.0).value == 3.0 && Evaluate("=15?3:2.3", 1000.0).value == 2.3
    ensures Evaluate("!100?10:5", 15.0).value == 10.0 && Evaluate("!100?10:5", 100.0).value == 5.0
    ensures Evaluate("@100-200?15:89", 100.0).value == 15.0 && Evaluate("@100-200?15:89", 250.0).value == 89.0
    ensures Evaluate("@100-200?15:89", 200.0).value == 89.0
    ensures Evaluate("<200?1:1.1", 10.0).err == None && Evaluate("<200?1:1.1", 1000.0).err == None
    ensures Evaluate(">200?3.5:2.0", 10.0).err == None && Evaluate(">200?3.5:2.0", 1000.0).err == None
    ensures Evaluate("=15?3:2.3", 15.0).err == None && Evaluate("=15?3:2.3", 1000.0).err == None
    ensures Evaluate("!100?10:5", 15.0).err == None && Evaluate("!100?10:5", 100.0).err == None
    ensures Evaluate("@100-200?15:89", 100.0).err == None && Evaluate("@100-200?15:89", 250.0).err == None
    ensures Evaluate("@100-200?15:89", 200.0).err == None
  {
    Smaller200(10.0); Smaller200(1000.0);
    Greater200(10.0); Greater200(1000.0);
    Equal15(15.0); Equal15(1000.0);
    NotEqual100(15.0); NotEqual100(100.0);
    Between100And200(100.0); Between100And200(250.0); Between100And200(200.0);
  }

  /** The outcomes of the sample set at value 10. */
  lemma SampleOutcomes(value: real)
    requires value == 10.0
    ensures Outcomes(SampleRules(), value) == SampleOutcomesAtTen()
  {
    var rules := SampleRules();
    var k := Outcomes(rules, value);
    var expected := SampleOutcomesAtTen();
    OutcomesIndex(rules, value);
    Smaller200(value);
    Greater200(value);
    Equal15(value);
    NotEqual100(value);
    Between100And200(value);
    assert k[0] == expected[0] && k[1] == expected[1] && k[2] == expected[2];
    assert k[3] == expected[3] && k[4] == expected[4];
    SameOutcomes(k, expected);
  }

  lemma SameOutcomes(a: seq<Outcome>, b: seq<Outcome>)
    requires |a| == |b| == 5
    requires a[0] == b[0] && a[1] == b[1] && a[2] == b[2] && a[3] == b[3] && a[4] == b[4]
    ensures a == b
  {
    assert forall i :: 0 <= i < 5 ==> a[i] == b[i];
  }

  function SampleOutcomesAtTen(): seq<Outcome> {
    [Outcome(1.0, None, true), Outcome(2.0, None, false), Outcome(2.3, None, false),
     Outcome(10.0, None, true), Outcome(89.0, None, false)]
  }

  lemma SampleValuesAtTen()
    ensures Values(SampleOutcomesAtTen()) == [1.0, 2.0, 2.3, 10.0, 89.0]
    ensures Sum(Values(SampleOutcomesAtTen())) == 104.3
    ensures UsedCount(SampleOutcomesAtTen()) == 2
  {
    var os := SampleOutcomesAtTen();
    var p0, p1, p2, p3 := os[..1], os[..2], os[..3], os[..4];
    assert p0 == [] + [os[0]] && p1 == p0 + [os[1]] && p2 == p1 + [os[2]];
    assert p3 == p2 + [os[3]] && os == p3 + [os[4]];
    AppendOne([], os[0]);
    AppendOne(p0, os[1]);
    AppendOne(p1, os[2]);
    AppendOne(p2, os[3]);
    AppendOne(p3, os[4]);
  }

  /** At value 10 the rules `<200` and `!100` are the used ones. */
  lemma SampleUsedOutcomes()
    ensures Kept(SampleOutcomesAtTen(), Some(true)) == [Outcome(1.0, None, true), Outcome(10.0, None, true)]
  {
    var os := SampleOutcomesAtTen();
    var p0, p1, p2, p3 := os[..1], os[..2], os[..3], os[..4];
    assert p0 == [] + [os[0]] && p1 == p0 + [os[1]] && p2 == p1 + [os[2]];
    assert p3 == p2 + [os[3]] && os == p3 + [os[4]];
    KeptAppend([], os[0], Some(true));
    KeptAppend(p0, os[1], Some(true));
    KeptAppend(p1, os[2], Some(true));
    KeptAppend(p2, os[3], Some(true));
    KeptAppend(p3, os[4], Some(true));
  }

  lemma SampleUsedAtTen(value: real)
    requires value == 10.0
    ensures Kept(Outcomes(SampleRules(), value), Some(true)) == [Outcome(1.0, None, true), Outcome(10.0, None, true)]
  {
    SampleOutcomes(value);
    SampleUsedOutcomes();
  }

  lemma UsedValues()
    ensures Sum(Values([Outcome(1.0, None, true), Outcome(10.0, None, true)])) == 11.0
  {
    var o0, o1 := Outcome(1.0, None, true), Outcome(10.0, None, true);
    AppendOne([], o0);
    AppendOne([o0], o1);
    assert [o0] + [o1] == [o0, o1];
  }

  /** The strategies over the outcomes at value 10. */
  lemma FoldAtTen(all: seq<Outcome>, draw: nat)
    requires all == SampleOutcomesAtTen()
    ensures Fold(all, CombineLastOne, draw) == Done(89.0)
    ensures Fold(all, CombineFirstOne, draw) == Done(1.0)
    ensures Fold(all, CombineSum, draw) == Done(104.3)
    ensures Fold(all, CombineAvg, draw) == Done(20.86)
    ensures Fold(all, CombineIntersections, draw) == Done(1.0)
  {
    SampleValuesAtTen();
    FoldPicks(all, draw);
    FoldTotals(all, draw);
  }

  /** TestRules_resultForVal, all results: the sample set at value 10. */
  lemma CombinerAllAtTen(value: real, draw: nat)
    requires value == 10.0
    ensures ResultFor(SampleRules(), value, CombineLastOne, None, draw) == Done(89.0)
    ensures ResultFor(SampleRules(), value, CombineFirstOne, None, draw) == Done(1.0)
    ensures ResultFor(SampleRules(), value, CombineSum, None, draw) == Done(104.3)
    ensures ResultFor(SampleRules(), value, CombineAvg, None, draw) == Done(20.86)
    ensures ResultFor(SampleRules(), value, CombineIntersections, None, draw) == Done(1.0)
  {
    SampleOutcomes(value);
    KeptUnfiltered(SampleOutcomesAtTen());
    FoldAtTen(Kept(Outcomes(SampleRules(), value), None), draw);
  }

  lemma FoldUsedAtTen(used: seq<Outcome>, draw: nat)
    requires used == [Outcome(1.0, None, true), Outcome(10.0, None, true)]
    ensures Fold(used, CombineSum, draw) == Done(11.0)
    ensures Fold(used, CombineAvg, draw) == Done(5.5)
  {
    FoldTotals(used, draw);
    UsedValues();
  }

  /** TestRules_resultForVal, only the used results: the rules `<200` and
      `!100` at value 10. */
  lemma CombinerUsedAtTen(value: real, draw: nat)
    requires value == 10.0
    ensures ResultFor(SampleRules(), value, CombineSum, Some(true), draw) == Done(11.0)
    ensures ResultFor(SampleRules(), value, CombineAvg, Some(true), draw) == Done(5.5)
  {
    SampleUsedAtTen(value);
    FoldUsedAtTen(Kept(Outcomes(SampleRules(), value), Some(true)), draw);
  }
}
