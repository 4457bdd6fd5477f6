/** One scale rule evaluated against a number: `Rule.result` and
    `handleCondition` of scale_rule.go. A rule is its text; the result is
    the chosen branch value, an optional error, and whether the condition
    matched ("used"). */
module Rule {
  import opened Wrappers
  import opened ParseFloat
  import opened RuleSyntax

  const EqlPrefix: char := '='
  const GtrPrefix: char := '>'
  const SmrPrefix: char := '<'
  const NotPrefix: char := '!'
  const RngPrefix: char := '@'

  /** The errors a rule can report. */
  datatype RuleError =
    | NotParsable(rule: string)   // the text does not match the rule pattern
    | InvalidSyntax(text: string) // strconv.ParseFloat rejected `text`
    | BetweenConditions           // a range condition is not exactly `low-high`

  /** The triple (value, err, used) that a rule evaluation returns. */
  datatype Outcome = Outcome(value: real, err: Option<RuleError>, used: bool)

  /** The four comparison operators, as an independent reference. */
  predicate Compares(op: char, value: real, condition: real) {
    match op
    case '<' => value < condition
    case '>' => value > condition
    case '=' => value == condition
    case '!' => value != condition
    case _ => false
  }

  predicate IsComparison(op: char) {
    op == SmrPrefix || op == GtrPrefix || op == EqlPrefix || op == NotPrefix
  }

  predicate IsKnownOperator(op: char) {
    IsComparison(op) || op == RngPrefix
  }

  /** The operator semantics. `conditionText` is the condition group of the
      match (read again here by the range operator), `condition` its value
      for the comparison operators. */
  function HandleCondition(value: real, op: char, conditionText: string, condition: real,
                           whenTrue: real, whenFalse: real): (r: Outcome)
    ensures r.err.None? && r.used ==> r.value == whenTrue
    ensures r.err.None? && !r.used && IsKnownOperator(op) ==> r.value == whenFalse
    ensures r.err.Some? ==> r.value == 0.0 && r.used && op == RngPrefix
    ensures r.err.Some? ==> !r.err.value.NotParsable?
    ensures !IsKnownOperator(op) ==> r == Outcome(0.0, None, false)
    ensures IsComparison(op) ==> r.err.None? && (r.used <==> Compares(op, value, condition))
  {
    if op == SmrPrefix then
      if value < condition then Outcome(whenTrue, None, true) else Outcome(whenFalse, None, false)
    else if op == GtrPrefix then
      if value > condition then Outcome(whenTrue, None, true) else Outcome(whenFalse, None, false)
    else if op == EqlPrefix then
      if value == condition then Outcome(whenTrue, None, true) else Outcome(whenFalse, None, false)
    else if op == NotPrefix then
      if value != condition then Outcome(whenTrue, None, true) else Outcome(whenFalse, None, false)
    else if op == RngPrefix then
      var conditions := SplitOn(conditionText, '-');
      if |conditions| == 2 then
        var from := conditions[0];
        match ParseNum(from)
        case None => Outcome(0.0, Some(InvalidSyntax(from)), true)
        case Some(conditionFrom) =>
          // the upper bound is read from the first piece as well
          match ParseNum(from)
          case None => Outcome(0.0, Some(InvalidSyntax(from)), true)
          case Some(conditionTo) =>
            if value >= conditionFrom && value <= conditionTo then Outcome(whenTrue, None, true)
            else Outcome(whenFalse, None, false)
      else
        Outcome(0.0, Some(BetweenConditions), true)
    else
      Outcome(0.0, None, false)
  }

  /** Rule.result: split the text, read the condition (except for a range),
      then the true and the false value, and apply the operator. */
  function Evaluate(rule: string, value: real): (r: Outcome)
    ensures Split(rule).None? ==> r == Outcome(0.0, Some(NotParsable(rule)), false)
    ensures r.err.Some? && r.err.value.NotParsable? <==> Split(rule).None?
    ensures r.err.Some? ==> r.value == 0.0
    ensures r.err.Some? && r.used ==> Split(rule).Some? && Split(rule).value.op == RngPrefix
  {
    match Split(rule)
    case None => Outcome(0.0, Some(NotParsable(rule)), false)
    case Some(p) =>
      var condition := if p.op != RngPrefix then ParseNum(p.condition) else Some(0.0);
      if condition.None? then Outcome(0.0, Some(InvalidSyntax(p.condition)), false)
      else
        match ParseNum(p.whenTrue)
        case None => Outcome(0.0, Some(InvalidSyntax(p.whenTrue)), false)
        case Some(trueVal) =>
          match ParseNum(p.whenFalse)
          case None => Outcome(0.0, Some(InvalidSyntax(p.whenFalse)), false)
          case Some(falseVal) =>
            HandleCondition(value, p.op, p.condition, condition.value, trueVal, falseVal)
  }

  /** The rule text `<op><c>?<t>:<f>`. */
  function RuleText(op: char, c: string, t: string, f: string): string {
    [op] + (c + "?" + t + ":" + f)
  }

  /** Numeric texts contain none of the pattern's separators. */
  lemma NumberHasNoSeparator(s: string)
    requires ParseNum(s).Some?
    ensures '?' !in s && ':' !in s && '\n' !in s
  {
  }

  /** A rule built from an operator, a condition text and two numeric
      branch texts splits back into exactly those parts. */
  lemma SplitRuleText(op: char, c: string, t: string, f: string)
    requires !IsWordChar(op) && '\n' !in c
    requires ParseNum(t).Some? && ParseNum(f).Some?
    ensures Split(RuleText(op, c, t, f)) == Some(Parts(op, c, t, f))
  {
    NumberHasNoSeparator(t);
    NumberHasNoSeparator(f);
    SplitComplete(RuleText(op, c, t, f), Parts(op, c, t, f));
  }

  /** A non-numeric true text is reported before the false text is read,
      and a non-numeric false text after a numeric true text; either way
      the rule gives 0 and is not used. The condition has been read
      already: it is a number, or the operator is the range operator. */
  lemma {:induction false} BadBranch(op: char, c: string, t: string, f: string, value: real)
    requires !IsWordChar(op) && '\n' !in c && '\n' !in t && '\n' !in f
    requires '?' !in t && ':' !in f
    requires op == RngPrefix || ParseNum(c).Some?
    ensures ParseNum(t).None? ==>
              Evaluate(RuleText(op, c, t, f), value) == Outcome(0.0, Some(InvalidSyntax(t)), false)
    ensures ParseNum(t).Some? && ParseNum(f).None? ==>
              Evaluate(RuleText(op, c, t, f), value) == Outcome(0.0, Some(InvalidSyntax(f)), false)
  {
    SplitComplete(RuleText(op, c, t, f), Parts(op, c, t, f));
  }

  /** The "not parsable" error is reported exactly for the texts that do
      not match the rule pattern, and then with value 0 and not used. */
  lemma MalformedRule(rule: string, value: real)
    ensures Evaluate(rule, value).err == Some(NotParsable(rule)) <==> forall p :: !Decomposes(rule, p)
    ensures (forall p :: !Decomposes(rule, p)) ==> Evaluate(rule, value) == Outcome(0.0, Some(NotParsable(rule)), false)
  {
    if Split(rule).Some? {
      SplitSound(rule);
      assert Decomposes(rule, Split(rule).value);
    } else {
      forall p ensures !Decomposes(rule, p) {
        SplitIff(rule, p);
      }
    }
  }

  /** With numeric branch texts, a rule text is evaluated by the operator
      semantics on its parts, unless the condition of a non-range operator
      is not a number. */
  lemma EvaluateText(op: char, c: string, t: string, f: string, value: real)
    requires !IsWordChar(op) && '\n' !in c
    requires ParseNum(t).Some? && ParseNum(f).Some?
    ensures op == RngPrefix ==>
              Evaluate(RuleText(op, c, t, f), value)
              == HandleCondition(value, op, c, 0.0, ParseNum(t).value, ParseNum(f).value)
    ensures op != RngPrefix && ParseNum(c).Some? ==>
              Evaluate(RuleText(op, c, t, f), value)
              == HandleCondition(value, op, c, ParseNum(c).value, ParseNum(t).value, ParseNum(f).value)
    ensures op != RngPrefix && ParseNum(c).None? ==>
              Evaluate(RuleText(op, c, t, f), value) == Outcome(0.0, Some(InvalidSyntax(c)), false)
  {
    SplitRuleText(op, c, t, f);
  }

  /** For `<`, `>`, `=` and `!` with numeric operands, exactly one branch
      is returned: the true value, used, when the comparison holds, the
      false value, not used, otherwise. */
  lemma {:induction false} EvaluateComparison(op: char, c: string, t: string, f: string, value: real)
    requires IsComparison(op)
    requires ParseNum(c).Some? && ParseNum(t).Some? && ParseNum(f).Some?
    ensures Evaluate(RuleText(op, c, t, f), value)
         == if Compares(op, value, ParseNum(c).value) then Outcome(ParseNum(t).value, None, true)
            else Outcome(ParseNum(f).value, None, false)
  {
    NumberHasNoSeparator(c);
    EvaluateText(op, c, t, f, value);
  }

  /** A range `@lo-hi` with a numeric lower bound matches only at the
      lower bound itself: the upper bound is taken from the lower-bound
      text, so `hi` is never read and may be any text without a dash. */
  lemma {:induction false} EvaluateRange(lo: string, hi: string, t: string, f: string, value: real)
    requires ParseNum(lo).Some? && '-' !in lo && '-' !in hi && '\n' !in hi
    requires ParseNum(t).Some? && ParseNum(f).Some?
    ensures Evaluate(RuleText(RngPrefix, lo + "-" + hi, t, f), value)
         == if value == ParseNum(lo).value then Outcome(ParseNum(t).value, None, true)
            else Outcome(ParseNum(f).value, None, false)
  {
    NumberHasNoSeparator(lo);
    RangeCondition(lo, hi);
    EvaluateText(RngPrefix, lo + "-" + hi, t, f, value);
  }

  /** `lo-hi` without further dashes splits into the two bounds. */
  lemma RangeCondition(lo: string, hi: string)
    requires '-' !in lo && '-' !in hi
    ensures SplitOn(lo + "-" + hi, '-') == [lo, hi]
  {
    SplitJoin([lo, hi], '-');
    assert Join([lo, hi], '-') == lo + "-" + hi;
  }

  /** A range condition without exactly one dash is reported as an
      error, and the rule still counts as used. */
  lemma {:induction false} RangeNotTwoBounds(c: string, t: string, f: string, value: real)
    requires '\n' !in c && multiset(c)['-'] != 1
    requires ParseNum(t).Some? && ParseNum(f).Some?
    ensures Evaluate(RuleText(RngPrefix, c, t, f), value) == Outcome(0.0, Some(BetweenConditions), true)
  {
    EvaluateText(RngPrefix, c, t, f, value);
  }

  /** A range whose lower bound is not a number is reported as an error,
      and the rule still counts as used. */
  lemma {:induction false} RangeBadBound(lo: string, hi: string, t: string, f: string, value: real)
    requires ParseNum(lo).None? && '-' !in lo && '-' !in hi && '\n' !in lo && '\n' !in hi
    requires ParseNum(t).Some? && ParseNum(f).Some?
    ensures Evaluate(RuleText(RngPrefix, lo + "-" + hi, t, f), value)
         == Outcome(0.0, Some(InvalidSyntax(lo)), true)
  {
    RangeCondition(lo, hi);
    EvaluateText(RngPrefix, lo + "-" + hi, t, f, value);
  }

  /** A non-word operator other than the five yields (0, no error, not
      used), once its condition and branches are numbers. */
  lemma {:induction false} UnknownOperator(op: char, c: string, t: string, f: string, value: real)
    requires !IsWordChar(op) && !IsKnownOperator(op)
    requires ParseNum(c).Some? && ParseNum(t).Some? && ParseNum(f).Some?
    ensures Evaluate(RuleText(op, c, t, f), value) == Outcome(0.0, None, false)
  {
    NumberHasNoSeparator(c);
    EvaluateText(op, c, t, f, value);
  }

  /** A condition of a non-range operator that is not a number is an
      error, and the rule does not count as used. The condition is read
      before either branch, so the branches may be anything. */
  lemma {:induction false} BadCondition(op: char, c: string, t: string, f: string, value: real)
    requires !IsWordChar(op) && op != RngPrefix && '\n' !in c && ParseNum(c).None?
    requires '\n' !in t && '\n' !in f && '?' !in t && ':' !in f
    ensures Evaluate(RuleText(op, c, t, f), value) == Outcome(0.0, Some(InvalidSyntax(c)), false)
  {
    SplitComplete(RuleText(op, c, t, f), Parts(op, c, t, f));
  }
}
