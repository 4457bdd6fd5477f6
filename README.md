# scale_rules in Dafny

A model of the Go package `scale_rules`, with proofs about it.

The package maps a number to another number through a set of textual
rules. A rule is written `<op><condition>?<true>:<false>`, for example
`<200?1:1.1` or `@100-200?15:89`. Evaluated against a value, a rule yields
a triple:

- the chosen branch value;
- an optional error;
- whether the condition matched ("used").

A rule set is a list of rules. `resultForVal` evaluates every rule. An
optional "only" filter keeps either the used results or the unused ones.
The kept results are then combined by one of nine strategies: last, first,
random, average, max, min, sum, intersections, or intersections-panic.
`ScaleRules` is a small mutable object that holds the rule set, the
strategy code and the filter. Its `Float` and `Int` methods run the
combiner.

The model has these modules:

- `ParseFloat` (parse_float.dfy) is a decimal lexer. It stands in for Go's
  `strconv.ParseFloat`. It accepts an optional sign, then digits with an
  optional fractional part, then an optional exponent. Numbers are exact
  `real`s.
- `RuleSyntax` (rule_syntax.dfy) is an explicit splitter. It computes the
  match of the rule pattern `^(\W)(.*)\?(.*):(.*)$`, and it is proved to
  agree with a declarative description of that match. It also holds the
  one-character `strings.Split` used for ranges, with its inverse `Join`.
- `Rule` (rule.dfy) has `Evaluate`, which models `Rule.result`, and
  `HandleCondition`, which models `handleCondition`. Lemmas about them
  cover every operator and every error path.
- `Combiner` (combiner.dfy) specifies `resultForVal` with functions:
  - `Outcomes` evaluates every rule;
  - `Kept` applies the filter;
  - `Values`, `Sum`, `MinFromZero`, `MaxFromZero` and `Intersections`
    are the accumulators;
  - `Switch` and `Fold` are the strategy switch.

  `ResultForVal` is the imperative loop of the Go code. It is proved to
  compute `ResultFor`. Go panics become `Panicked(cause)` values.
- `CombineFunctions` and `ScaleRulesFacade` (scale_rules.dfy) hold the
  strategy codes and the `ScaleRules` class, whose fields the setters
  overwrite.
- `Scenarios` (scenarios.dfy) restates the table tests of
  scale_rule_test.go as lemmas about the model.

The random strategy's time-seeded generator becomes a parameter
`draw: nat`, so `rand.Intn(m)` is `draw % m`. The `log.Print` of an
erroring rule has no effect on the result and is dropped. The nil rule
container of a fresh `ScaleRules` is `None`. Ranging over it in `Float`
panics (`Panicked(NilRules)`).

In four places the code does something its names or its callers might
lead a reader to expect otherwise. The model follows the code in each:

- **Erroring rules are not skipped.** When a rule errs, the loop logs the
  error and goes on with the rule's result (scale_rule.go:26-29). Its 0
  and its used flag pass through the filter and into the accumulators.
  `Combiner.AppendMalformedRule` shows this.
- **The range upper bound.** The variables are named `conditionFrom` and
  `conditionTo`, and the tests are named "Between 100-200 = 15" and
  "NOT Between 100-200 = 89" (scale_rule_test.go:87, 96). Both suggest
  the interval from the first bound to the second. But the code parses
  both bounds from the first piece (scale_rule.go:156-160), so `@a-b`
  matches only at `a`. So `@100-200?15:89` at 200 gives 89, not 15
  (`Rule.EvaluateRange`, `Scenarios.Between100And200`). The tests probe
  only 100 and 250, where both readings agree.
- **The panic condition.** The strategy is named
  `CombineIntersectionPanics`, and the counter it tests is named
  `intersectionUsed`. The first used result only sets
  `intersectionFlag`, and each later used result adds 1 to the counter
  (scale_rule.go:39-43). So the strategy panics when at least two kept
  results were used, not when one was
  (`Combiner.IntersectionStrategies`).
- **Random with one result.** With exactly one kept result,
  `rand.Intn(0)` panics (`Combiner.RandomPick`).

## Model

The functions that define the model, `RuleSyntax.Split`,
`Combiner.Outcomes`, `Combiner.Kept`, `Combiner.Switch`, `Combiner.Fold`
and `Combiner.ResultFor`, carry no contract of their own. The rows below
name the lemmas that state what they compute: `RuleSyntax.SplitIff` for
`Split`; `Combiner.OutcomesIndex` for `Outcomes`;
`Combiner.KeptUnfiltered` and `Combiner.KeptFiltered` for `Kept`; and
the `Fold…`, `Random…` and `Intersection…` lemmas for `Switch` and
`Fold`. `Combiner.ResultForVal` is proved to compute `ResultFor`. Rows
marked "proof step" are one-step unfoldings used by the loop proof.

| member | source | states |
|---|---|---|
| ParseFloat.ParseNum | scale_rule.go:109-122 | String-to-number conversion fails on the empty string; any string it accepts consists only of digits, signs, `.`, `e` and `E` |
| ParseFloat.ParseNatText | scale_rule.go:109 | Every natural number's decimal text, bare, with `-` or with `+`, reads back as that number, negated for `-` |
| ParseFloat.ParseDecimal | scale_rule.go:115-122 | `whole.frac` reads as the whole part plus the value of the fraction digits |
| ParseFloat.DecimalText | scale_rule.go:115-122 | Any digit string, a point and a digit string read as the integer part plus the fraction |
| ParseFloat.ParseDigits | scale_rule.go:109 | A non-empty digit string reads as its natural-number value |
| ParseFloat.ScaleUp | scale_rule.go:115-122 | Scaling by a non-negative exponent k multiplies by 10^k |
| ParseFloat.ScaleDown | scale_rule.go:115-122 | Scaling by a negative exponent -k divides by 10^k |
| ParseFloat.ExponentValue | scale_rule.go:115-122 | Digits, `e` and digits read as the mantissa's value times 10 to the exponent's value |
| ParseFloat.NegativeExponentValue | scale_rule.go:115-122 | Digits, `e-` and digits read as the mantissa's value divided by 10 to the exponent's value |
| ParseFloat.ExponentForm | scale_rule.go:115-122 | The text of m, `e` and the text of k reads back as m * 10^k |
| ParseFloat.NegativeExponentForm | scale_rule.go:115-122 | The text of m, `e-` and the text of k reads back as m / 10^k |
| RuleSyntax.SplitSound | scale_rule.go:98-106 | When the splitter succeeds, the text is operator, condition, `?`, true text, `:`, false text. The operator is a non-word character, no line break follows it, and the greedy groups leave no `?` in the true text and no `:` in the false text |
| RuleSyntax.SplitComplete | scale_rule.go:98-106 | Every such decomposition of a text is what the splitter returns |
| RuleSyntax.SplitIff | scale_rule.go:98-106 | The splitter returns `p` exactly when `p` is a decomposition of the text, so the match is unique |
| RuleSyntax.SplitOn | scale_rule.go:154 | Splitting on `-` gives one more piece than there are dashes; no piece contains a dash; joining the pieces restores the text |
| RuleSyntax.SplitJoin | scale_rule.go:154 | Splitting the join of dash-free pieces gives back those pieces |
| Rule.HandleCondition | scale_rule.go:127-176 | A comparison operator never errs and is used exactly when its comparison holds. A used result carries the true value and an unused one the false value. Only the range operator errs, and then with value 0 and used set. An unknown operator gives (0, no error, unused) |
| Rule.Evaluate | scale_rule.go:97-125 | A text that fails to split gives (0, not parsable, unused), and a not-parsable error occurs only then. Every error has value 0. An error with used set comes only from the range operator |
| Rule.SplitRuleText | scale_rule.go:98-106 | The text built from an operator, a condition and two numeric branches splits back into those four parts |
| Rule.MalformedRule | scale_rule.go:102-106 | The not-parsable error occurs exactly for texts that do not match the pattern, and then gives (0, error, unused) |
| Rule.EvaluateText | scale_rule.go:108-124 | With numeric branches, a rule evaluates by the operator semantics on its parsed parts. A range skips the condition parse. A non-numeric condition of any other operator gives (0, invalid syntax, unused) |
| Rule.EvaluateComparison | scale_rule.go:129-152 | For `<`, `>`, `=` and `!`: the true value, marked used, when the comparison holds; otherwise the false value, marked unused |
| Rule.EvaluateRange | scale_rule.go:153-169 | `@lo-hi` returns the true value, marked used, exactly when the value equals `lo`, whatever `hi` is; otherwise the false value, marked unused |
| Rule.RangeCondition | scale_rule.go:154-155 | `lo-hi` without further dashes splits into exactly the two bounds |
| Rule.RangeNotTwoBounds | scale_rule.go:154-173 | With numeric branches, a range condition without exactly one dash gives (0, between-conditions error, used) |
| Rule.RangeBadBound | scale_rule.go:156-159 | With numeric branches, a range whose lower bound is not a number gives (0, invalid syntax, used) |
| Rule.UnknownOperator | scale_rule.go:175 | With a numeric condition and numeric branches, a non-word operator outside the five gives (0, no error, unused) |
| Rule.BadCondition | scale_rule.go:108-113 | A non-numeric condition of a non-range operator gives (0, invalid syntax of the condition, unused), whatever the branches hold: the condition is read before either branch |
| Rule.BadBranch | scale_rule.go:115-122 | With a condition already read, a non-numeric true text gives (0, invalid syntax of that text, unused) before the false text is read; a numeric true text with a non-numeric false text gives (0, invalid syntax of the false text, unused) |
| Combiner.ResultForVal | scale_rule.go:17-87 | The loop with its filter, accumulators and strategy switch returns `ResultFor`: the fold of the kept outcomes of all rules |
| Combiner.Accumulate | scale_rule.go:39-55 | After one kept outcome, the accumulators still agree with the kept outcomes: the results list, min and max seeded at 0, the sum, the intersection flag and the intersection counter |
| Combiner.OutcomesIndex | scale_rule.go:25-26 | Every rule is evaluated, in order: the i-th outcome is the i-th rule's result |
| Combiner.KeptUnfiltered | scale_rule.go:25-37 | Without a filter every outcome is kept, erroring ones included |
| Combiner.KeptFiltered | scale_rule.go:31-37 | With `only = b`, every kept outcome has used flag `b` and comes from the rules, and every outcome with used flag `b` is kept |
| Combiner.FilterPartition | scale_rule.go:31-37 | The used-only and unused-only results split all results: their counts and sums add up. The used-only results are all used, the unused-only results none |
| Combiner.KeptAppend | scale_rule.go:31-37 | Proof step: one outcome more is appended to the kept ones exactly when the filter keeps it |
| Combiner.AppendOne | scale_rule.go:53-55 | Proof step: one kept outcome more appends its value to the results and adds it to the sum and, when used, to the used count |
| Combiner.AccumulateOne | scale_rule.go:45-53 | Proof step: one result more lowers the minimum when smaller, raises the maximum when larger, and is added to the sum |
| Combiner.OutcomesAppend | scale_rule.go:25-26 | Proof step: one rule more appends its outcome at the end |
| Combiner.MinFromZeroBounds | scale_rule.go:45-47 | The minimum as the loop keeps it is at most 0 and at most every result |
| Combiner.MinFromZeroAttained | scale_rule.go:45-47 | That minimum is 0 or one of the results, so it is the greatest such bound |
| Combiner.MaxFromZeroBounds | scale_rule.go:49-51 | The maximum as the loop keeps it is at least 0 and at least every result |
| Combiner.MaxFromZeroAttained | scale_rule.go:49-51 | That maximum is 0 or one of the results, so it is the least such bound |
| Combiner.MinOfPositiveResultsIsZero | scale_rule.go:45-47 | With only positive results the minimum is 0, not the smallest result |
| Combiner.MaxOfNegativeResultsIsZero | scale_rule.go:49-51 | With only negative results the maximum is 0, not the largest result |
| Combiner.AppendMalformedRule | scale_rule.go:26-29 | A malformed rule appended to the set adds a kept, unused 0. The sum is unchanged for every filter, the unused-only results grow by it, and last-one returns 0 |
| Combiner.LastOneUnfiltered | scale_rule.go:63-64 | Without a filter, last-one returns the last rule's value |
| Combiner.NothingKept | scale_rule.go:58-60 | With no kept result, every strategy returns 0 |
| Combiner.FoldPicks | scale_rule.go:63-66 | Last-one returns the last kept result, first-one the first |
| Combiner.FoldTotals | scale_rule.go:70-79 | On kept results: sum returns their sum, average the sum divided by their number, intersections the intersection counter |
| Combiner.FoldMin | scale_rule.go:74-75 | Min returns the zero-seeded minimum, which is at most 0 and at most every kept result |
| Combiner.FoldMax | scale_rule.go:72-73 | Max returns the zero-seeded maximum, which is at least 0 and at least every kept result |
| Combiner.MinOfKept | scale_rule.go:45-47 | The minimum over the kept outcomes' values is at most 0 and at most each kept value |
| Combiner.MaxOfKept | scale_rule.go:49-51 | The maximum over the kept outcomes' values is at least 0 and at least each kept value |
| Combiner.RandomPick | scale_rule.go:67-69 | With one kept result random panics. Otherwise it returns a result other than the last, and each of those is returned for some draw |
| Combiner.RandomSingle | scale_rule.go:69 | With exactly one kept result, `rand.Intn(0)` panics |
| Combiner.RandomAt | scale_rule.go:69 | A draw below n - 1 returns the result at that index |
| Combiner.RandomDraw | scale_rule.go:69 | With two or more kept results, random returns the result at index `draw % (n - 1)`, which is below n - 1 |
| Combiner.IntersectionStrategies | scale_rule.go:78-83 | Intersections returns the number of used kept results minus one, or 0 when none was used. The panicking strategy panics exactly when that number is positive and returns 0 otherwise |
| Combiner.IntersectionsCountUsedRules | scale_rule.go:31-43 | The intersection counter is the number of used results minus one, or 0. Under only-unused it is 0, so the panicking strategy cannot panic |
| Combiner.UnknownStrategy | scale_rule.go:62-86 | A strategy code outside 1..9 returns 0 |
| Combiner.SingleRule | scale_rule.go:17-66 | One rule through the combiner returns that rule's own value, for first-one and last-one alike |
| CombineFunctions.CodesAreOneToNine | scale_rules.go:16-26 | The nine strategy codes are the distinct integers 1 to 9, in declaration order |
| ScaleRulesFacade.TruncateTowardZero | scale_rules.go:50-52 | Go's `int(x)`: the integer next to `x` on the side of 0, within distance 1 |
| ScaleRulesFacade.ScaleRules.constructor | scale_rules.go:61-63 | A new object has strategy last-one, no rule container and no filter |
| ScaleRulesFacade.ScaleRules.SetCombineFunction | scale_rules.go:34-36 | Sets the strategy and leaves the other two fields unchanged |
| ScaleRulesFacade.ScaleRules.SetUseOnly | scale_rules.go:38-40 | Sets the filter to the given flag and leaves the other two fields unchanged |
| ScaleRulesFacade.ScaleRules.SetRules | scale_rules.go:42-44 | Replaces the rule container and leaves the other two fields unchanged |
| ScaleRulesFacade.ScaleRules.Float | scale_rules.go:46-48 | Returns the combiner result on the current container, strategy and filter. With no container it panics |
| ScaleRulesFacade.ScaleRules.Int | scale_rules.go:50-52 | Returns the combiner result on the value as a number, truncated toward zero; a panic passes through |
| Scenarios.Smaller200 | scale_rule_test.go:18-35 | `<200?1:1.1` returns 1 (used) below 200 and 1.1 (unused) otherwise |
| Scenarios.Greater200 | scale_rule_test.go:36-52 | `>200?3.5:2.0` returns 3.5 (used) above 200 and 2 (unused) otherwise |
| Scenarios.Equal15 | scale_rule_test.go:53-69 | `=15?3:2.3` returns 3 (used) at 15 and 2.3 (unused) otherwise |
| Scenarios.NotEqual100 | scale_rule_test.go:70-86 | `!100?10:5` returns 10 (used) away from 100 and 5 (unused) at 100 |
| Scenarios.Between100And200 | scale_rule_test.go:87-103 | `@100-200?15:89` returns 15 (used) at 100 and 89 (unused) at every other value |
| Scenarios.RuleTable | scale_rule_test.go:7-117 | Every row of the rule table gives its expected value and no error, and the range rule gives 89 at 200 |
| Scenarios.SampleOutcomes | scale_rule_test.go:119-121 | At value 10 the five-rule set gives the outcomes 1 (used), 2, 2.3, 10 (used) and 89 |
| Scenarios.SampleValuesAtTen | scale_rule_test.go:144-150 | Those outcomes' values sum to 104.3 and two of them are used |
| Scenarios.CombinerAllAtTen | scale_rule_test.go:135-184 | Without a filter, at value 10: last-one 89, first-one 1, sum 104.3, average 20.86, intersections 1 |
| Scenarios.CombinerUsedAtTen | scale_rule_test.go:151-193 | With only-used, at value 10: sum 11 and average 5.5 |

## Left out

- `Parse` (scale_rules.go:54-59) decodes JSON through `encoding/json`, a foreign library. The rule set is taken as a given `seq<string>`, and `None` stands for a nil container.
- The regular-expression engine (scale_rule.go:98) is replaced by the explicit splitter `RuleSyntax.Split`. Its agreement with the pattern is stated by `RuleSyntax.Decomposes`, not derived from a regex semantics. The `\w` class is ASCII letters, digits and `_`, as in Go's RE2 syntax.
- `strconv.ParseFloat` is replaced by the decimal lexer `ParseFloat.ParseNum`:
  - it does not accept `inf`, `nan`, hexadecimal floats or underscores;
  - it does not report out-of-range errors;
  - it does not round to the nearest float64.
- Floating-point arithmetic in general: all numbers are exact reals, so the sum, the average and the comparisons never round. The test values 104.3 and 20.86 are proved exactly. The `float64` input of `Float` and `Int` cannot be NaN or ±Inf in the model, because a `real` has no such values. In Go, a NaN input makes `!` used and `<`, `>`, `=` and `@` unused.
- The text of the error values is not modelled; each error is a variant of `Rule.RuleError`.
- `log.Print` (scale_rule.go:28) is diagnostic I/O with no effect on the result.
- `rand.Seed(time.Now().UnixNano())` and the generator (scale_rule.go:68-69) are time-based. The draw is a parameter, and `rand.Intn(m)` is `draw % m`.
- Go's `panic` is modelled as the value `Panicked(cause)`, not as an unwinding of the stack.
- ScaleRulesFacade.ScaleRules.Int: does not model the 64-bit range of Go's `int`. A result outside that range truncates to an unbounded integer, where Go's conversion is implementation-defined.
- ScaleRulesFacade.ScaleRules.SetRules: stores the rule list as a value. Go stores a pointer, so a later change to the slice through another alias would be seen by the object; the model does not capture that aliasing.
- The `ScaleRuler` interface (scale_rules.go:5-12) is not modelled separately; the class carries its methods except `Parse`.
- Concurrent use of one object is not modelled; every call runs to completion on its own.
