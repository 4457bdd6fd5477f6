/** The rule-set combiner, `Rules.resultForVal` of scale_rule.go: every
    rule is evaluated against the value, the optional "only" filter keeps
    the used or the unused results, and the kept results are folded by one
    of nine strategies. Kept, Fold and the accumulator functions specify
    the loop; ResultForVal is the loop itself. */
module Combiner {
  import opened Wrappers
  import opened Rule
  import opened RuleSyntax
  import opened CombineFunctions

  /** Why an evaluation stops abnormally (a Go panic). */
  datatype PanicCause =
    | IntersectionFound // CombineIntersectionPanics with an intersection
    | IntnNonPositive   // rand.Intn(0): CombineRandom with one kept result
    | NilRules          // no rule container has been set

  /** A value, or the panic that ended the evaluation. */
  datatype Completion<T> = Done(value: T) | Panicked(cause: PanicCause)

  /** The "only" filter: None keeps everything, Some(b) keeps the results
      whose used flag is b. */
  predicate Keep(o: Outcome, only: Option<bool>) {
    match only
    case None => true
    case Some(b) => o.used == b
  }

  /** Every rule's outcome, in rule order. */
  function Outcomes(rules: seq<string>, value: real): seq<Outcome>
    decreases |rules|
  {
    if rules == [] then []
    else Outcomes(rules[..|rules| - 1], value) + [Evaluate(rules[|rules| - 1], value)]
  }

  /** The outcomes the filter keeps, in order. Errors are not skipped: an
      erroring rule's outcome is filtered like any other. */
  function Kept(os: seq<Outcome>, only: Option<bool>): seq<Outcome>
    decreases |os|
  {
    if os == [] then []
    else
      var o := os[|os| - 1];
      Kept(os[..|os| - 1], only) + (if Keep(o, only) then [o] else [])
  }

  function Values(os: seq<Outcome>): seq<real>
    decreases |os|
  {
    if os == [] then [] else Values(os[..|os| - 1]) + [os[|os| - 1].value]
  }

  function Sum(xs: seq<real>): real
    decreases |xs|
  {
    if xs == [] then 0.0 else Sum(xs[..|xs| - 1]) + xs[|xs| - 1]
  }

  /** The running minimum as the loop keeps it: seeded with 0, lowered
      whenever a result is smaller. */
  function MinFromZero(xs: seq<real>): real
    decreases |xs|
  {
    if xs == [] then 0.0
    else
      var m := MinFromZero(xs[..|xs| - 1]);
      if m > xs[|xs| - 1] then xs[|xs| - 1] else m
  }

  /** The running maximum as the loop keeps it: seeded with 0, raised
      whenever a result is larger. */
  function MaxFromZero(xs: seq<real>): real
    decreases |xs|
  {
    if xs == [] then 0.0
    else
      var m := MaxFromZero(xs[..|xs| - 1]);
      if m < xs[|xs| - 1] then xs[|xs| - 1] else m
  }

  /** The number of used outcomes. */
  function UsedCount(os: seq<Outcome>): nat
    decreases |os|
  {
    if os == [] then 0 else UsedCount(os[..|os| - 1]) + (if os[|os| - 1].used then 1 else 0)
  }

  /** The intersection counter: the first used result only raises the
      flag, every later one counts. */
  function Intersections(os: seq<Outcome>): nat {
    if UsedCount(os) == 0 then 0 else UsedCount(os) - 1
  }

  /** The strategy switch after the loop, on the kept results and the
      accumulators. `draw` stands for the time-seeded generator:
      rand.Intn(m) is draw % m. */
  function Switch(results: seq<real>, minResult: real, maxResult: real, sumResult: real,
                  intersectionUsed: nat, combine: int, draw: nat): Completion<real>
  {
    var n := |results|;
    if n == 0 then Done(0.0)
    else if combine == CombineLastOne then Done(results[n - 1])
    else if combine == CombineFirstOne then Done(results[0])
    else if combine == CombineRandom then
      if n - 1 <= 0 then Panicked(IntnNonPositive) else Done(results[draw % (n - 1)])
    else if combine == CombineAvg then Done(sumResult / n as real)
    else if combine == CombineMax then Done(maxResult)
    else if combine == CombineMin then Done(minResult)
    else if combine == CombineSum then Done(sumResult)
    else if combine == CombineIntersections then Done(intersectionUsed as real)
    else if combine == CombineIntersectionPanics && intersectionUsed > 0 then Panicked(IntersectionFound)
    else Done(0.0)
  }

  /** The fold over the kept outcomes: the switch on their values and on
      the accumulators the loop computes from them. */
  function Fold(kept: seq<Outcome>, combine: int, draw: nat): Completion<real> {
    var xs := Values(kept);
    Switch(xs, MinFromZero(xs), MaxFromZero(xs), Sum(xs), Intersections(kept), combine, draw)
  }

  /** What resultForVal returns for a rule set. */
  function ResultFor(rules: seq<string>, value: real, combine: int, only: Option<bool>, draw: nat): Completion<real> {
    Fold(Kept(Outcomes(rules, value), only), combine, draw)
  }

  /** The loop's accumulators agree with the kept outcomes. */
  predicate Tracks(kept: seq<Outcome>, results: seq<real>, minResult: real, maxResult: real,
                   sumResult: real, intersectionFlag: bool, intersectionUsed: nat)
  {
    && results == Values(kept)
    && minResult == MinFromZero(results)
    && maxResult == MaxFromZero(results)
    && sumResult == Sum(results)
    && intersectionFlag == (UsedCount(kept) > 0)
    && intersectionUsed == Intersections(kept)
  }

  /** The loop of resultForVal with its accumulators. */
  method ResultForVal(rules: seq<string>, value: real, combine: int, only: Option<bool>, draw: nat)
    returns (r: Completion<real>)
    ensures r == ResultFor(rules, value, combine, only, draw)
  {
    var results: seq<real> := [];
    var minResult, maxResult, sumResult := 0.0, 0.0, 0.0;
    var intersectionFlag := false;
    var intersectionUsed: nat := 0;
    ghost var kept: seq<Outcome> := [];

    for i := 0 to |rules|
      invariant kept == Kept(Outcomes(rules[..i], value), only)
      invariant Tracks(kept, results, minResult, maxResult, sumResult, intersectionFlag, intersectionUsed)
    {
      var o := Evaluate(rules[i], value);
      KeptStep(rules, i, value, only);
      // an error is only logged here
      if only.Some? && only.value == false && o.used {
        continue;
      }
      if only.Some? && only.value == true && !o.used {
        continue;
      }
      results, minResult, maxResult, sumResult, intersectionFlag, intersectionUsed :=
        Accumulate(kept, o, results, minResult, maxResult, sumResult, intersectionFlag, intersectionUsed);
      kept := kept + [o];
    }
    assert rules[..|rules|] == rules;

    if results == [] {
      return Done(0.0);
    }
    r := Switch(results, minResult, maxResult, sumResult, intersectionUsed, combine, draw);
  }

  /** The body of the loop for a kept outcome: collect its value, update
      the minimum, the maximum and the sum, and count an intersection. */
  method Accumulate(ghost kept: seq<Outcome>, o: Outcome, results: seq<real>, minResult: real, maxResult: real,
                    sumResult: real, intersectionFlag: bool, intersectionUsed: nat)
    returns (results': seq<real>, minResult': real, maxResult': real, sumResult': real,
             intersectionFlag': bool, intersectionUsed': nat)
    requires Tracks(kept, results, minResult, maxResult, sumResult, intersectionFlag, intersectionUsed)
    ensures Tracks(kept + [o], results', minResult', maxResult', sumResult', intersectionFlag', intersectionUsed')
  {
    minResult', maxResult', sumResult' := minResult, maxResult, sumResult;
    intersectionFlag', intersectionUsed' := intersectionFlag, intersectionUsed;
    if o.used && intersectionFlag {
      intersectionUsed' := intersectionUsed + 1;
    } else if o.used && !intersectionFlag {
      intersectionFlag' := true;
    }
    if minResult > o.value {
      minResult' := o.value;
    }
    if maxResult < o.value {
      maxResult' := o.value;
    }
    sumResult' := sumResult + o.value;
    KeepOne(kept, o);
    results' := results + [o.value];
  }

  // ---------------------------------------------------------------------
  // Lemmas about the specification

  lemma {:induction false} ValuesCount(os: seq<Outcome>)
    ensures |Values(os)| == |os|
    decreases |os|
  {
    if os != [] {
      ValuesCount(os[..|os| - 1]);
    }
  }

  lemma {:induction false} ValuesAt(os: seq<Outcome>, i: nat)
    requires i < |os|
    ensures |Values(os)| == |os| && Values(os)[i] == os[i].value
    decreases |os|
  {
    var init := os[..|os| - 1];
    ValuesCount(init);
    if i < |init| {
      ValuesAt(init, i);
    }
  }

  /** Values keeps the order and the number of the outcomes. */
  lemma ValuesLength(os: seq<Outcome>)
    ensures |Values(os)| == |os|
    ensures forall i :: 0 <= i < |os| ==> Values(os)[i] == os[i].value
  {
    ValuesCount(os);
    forall i | 0 <= i < |os|
      ensures Values(os)[i] == os[i].value
    {
      ValuesAt(os, i);
    }
  }

  /** The seeded minimum is a lower bound of 0 and of every kept result. */
  lemma {:induction false} MinFromZeroBounds(xs: seq<real>)
    ensures MinFromZero(xs) <= 0.0
    ensures forall i :: 0 <= i < |xs| ==> MinFromZero(xs) <= xs[i]
    decreases |xs|
  {
    if xs != [] {
      var init := xs[..|xs| - 1];
      MinFromZeroBounds(init);
      assert forall i :: 0 <= i < |init| ==> init[i] == xs[i];
    }
  }

  /** ... and it is 0 or one of the results, so it is the greatest such
      bound. */
  lemma {:induction false} MinFromZeroAttained(xs: seq<real>)
    ensures MinFromZero(xs) == 0.0 || exists i :: 0 <= i < |xs| && MinFromZero(xs) == xs[i]
    decreases |xs|
  {
    if xs != [] {
      var init := xs[..|xs| - 1];
      MinFromZeroAttained(init);
      if MinFromZero(xs) != 0.0 && MinFromZero(xs) != xs[|xs| - 1] {
        var i :| 0 <= i < |init| && MinFromZero(init) == init[i];
        assert MinFromZero(xs) == xs[i];
      }
    }
  }

  /** The seeded maximum is an upper bound of 0 and of every kept result. */
  lemma {:induction false} MaxFromZeroBounds(xs: seq<real>)
    ensures MaxFromZero(xs) >= 0.0
    ensures forall i :: 0 <= i < |xs| ==> MaxFromZero(xs) >= xs[i]
    decreases |xs|
  {
    if xs != [] {
      var init := xs[..|xs| - 1];
      MaxFromZeroBounds(init);
      assert forall i :: 0 <= i < |init| ==> init[i] == xs[i];
    }
  }

  /** ... and it is 0 or one of the results, so it is the least such
      bound. */
  lemma {:induction false} MaxFromZeroAttained(xs: seq<real>)
    ensures MaxFromZero(xs) == 0.0 || exists i :: 0 <= i < |xs| && MaxFromZero(xs) == xs[i]
    decreases |xs|
  {
    if xs != [] {
      var init := xs[..|xs| - 1];
      MaxFromZeroAttained(init);
      if MaxFromZero(xs) != 0.0 && MaxFromZero(xs) != xs[|xs| - 1] {
        var i :| 0 <= i < |init| && MaxFromZero(init) == init[i];
        assert MaxFromZero(xs) == xs[i];
      }
    }
  }

  /** Because of the zero seed, the minimum of results that are all
      positive is 0, not the smallest result. */
  lemma MinOfPositiveResultsIsZero(xs: seq<real>)
    requires forall i :: 0 <= i < |xs| ==> xs[i] > 0.0
    ensures MinFromZero(xs) == 0.0
  {
    MinFromZeroBounds(xs);
  }

  /** Because of the zero seed, the maximum of results that are all
      negative is 0, not the largest result. */
  lemma MaxOfNegativeResultsIsZero(xs: seq<real>)
    requires forall i :: 0 <= i < |xs| ==> xs[i] < 0.0
    ensures MaxFromZero(xs) == 0.0
  {
    MaxFromZeroBounds(xs);
  }

  lemma {:induction false} UsedCountBound(os: seq<Outcome>)
    ensures UsedCount(os) <= |os|
    decreases |os|
  {
    if os != [] {
      UsedCountBound(os[..|os| - 1]);
    }
  }

  /** Every rule is evaluated, in order: the i-th outcome is the i-th
      rule's result. */
  lemma {:induction false} OutcomesIndex(rules: seq<string>, value: real)
    ensures |Outcomes(rules, value)| == |rules|
    ensures forall i :: 0 <= i < |rules| ==> Outcomes(rules, value)[i] == Evaluate(rules[i], value)
    decreases |rules|
  {
    if rules != [] {
      var last := |rules| - 1;
      var init := rules[..last];
      OutcomesIndex(init, value);
      var os, os0 := Outcomes(rules, value), Outcomes(init, value);
      assert os == os0 + [Evaluate(rules[last], value)];
      forall i | 0 <= i < |rules|
        ensures os[i] == Evaluate(rules[i], value)
      {
        if i < last {
          assert os[i] == os0[i];
          assert init[i] == rules[i];
        }
      }
    }
  }

  /** Without a filter every outcome is kept, erroring ones included. */
  lemma {:induction false} KeptUnfiltered(os: seq<Outcome>)
    ensures Kept(os, None) == os
    decreases |os|
  {
    if os != [] {
      KeptUnfiltered(os[..|os| - 1]);
    }
  }

  /** With only = b exactly the outcomes whose used flag is b are kept. */
  lemma {:induction false} KeptFiltered(os: seq<Outcome>, b: bool)
    ensures forall o :: o in Kept(os, Some(b)) ==> o.used == b && o in os
    ensures forall i :: 0 <= i < |os| && os[i].used == b ==> os[i] in Kept(os, Some(b))
    decreases |os|
  {
    if os != [] {
      var init := os[..|os| - 1];
      KeptFiltered(init, b);
      assert forall i :: 0 <= i < |init| ==> init[i] == os[i];
      assert forall o :: o in init ==> o in os;
    }
  }

  /** How the filter grows by one outcome. */
  lemma KeptAppend(os: seq<Outcome>, o: Outcome, only: Option<bool>)
    ensures Kept(os + [o], only) == Kept(os, only) + (if Keep(o, only) then [o] else [])
  {
    assert (os + [o])[..|os|] == os;
  }

  /** The two filters split the unfiltered results: counts, sums and
      used counts of the used-only and the unused-only results add up to
      those of all results. */
  lemma {:induction false} FilterPartition(os: seq<Outcome>)
    ensures |Kept(os, Some(true))| + |Kept(os, Some(false))| == |os|
    ensures Sum(Values(Kept(os, Some(true)))) + Sum(Values(Kept(os, Some(false)))) == Sum(Values(os))
    ensures UsedCount(os) == |Kept(os, Some(true))|
    ensures UsedCount(Kept(os, Some(true))) == |Kept(os, Some(true))|
    ensures UsedCount(Kept(os, Some(false))) == 0
    decreases |os|
  {
    if os != [] {
      var init := os[..|os| - 1];
      var o := os[|os| - 1];
      FilterPartition(init);
      var u, n := Kept(init, Some(true)), Kept(init, Some(false));
      assert os == init + [o];
      AppendOne(init, o);
      KeptAppend(init, o, Some(true));
      KeptAppend(init, o, Some(false));
      if o.used {
        assert Kept(os, Some(true)) == u + [o] && Kept(os, Some(false)) == n;
        AppendOne(u, o);
      } else {
        assert Kept(os, Some(true)) == u && Kept(os, Some(false)) == n + [o];
        AppendOne(n, o);
      }
    }
  }

  /** How Values, Sum and UsedCount grow by one outcome. */
  lemma AppendOne(os: seq<Outcome>, o: Outcome)
    ensures Values(os + [o]) == Values(os) + [o.value]
    ensures Sum(Values(os + [o])) == Sum(Values(os)) + o.value
    ensures UsedCount(os + [o]) == UsedCount(os) + (if o.used then 1 else 0)
  {
    assert (os + [o])[..|os|] == os;
    var xs := Values(os) + [o.value];
    assert xs[..|xs| - 1] == Values(os);
  }

  /** One more rule: its outcome is evaluated and appended when the
      filter keeps it. */
  lemma KeptStep(rules: seq<string>, i: nat, value: real, only: Option<bool>)
    requires i < |rules|
    ensures var o := Evaluate(rules[i], value);
            Kept(Outcomes(rules[..i + 1], value), only)
            == Kept(Outcomes(rules[..i], value), only) + (if Keep(o, only) then [o] else [])
  {
    assert rules[..i + 1][..i] == rules[..i];
    KeptAppend(Outcomes(rules[..i], value), Evaluate(rules[i], value), only);
  }

  /** One kept outcome more, in terms of the loop's accumulators. */
  lemma KeepOne(kept: seq<Outcome>, o: Outcome)
    ensures var xs := Values(kept);
            && Values(kept + [o]) == xs + [o.value]
            && MinFromZero(xs + [o.value]) == (if MinFromZero(xs) > o.value then o.value else MinFromZero(xs))
            && MaxFromZero(xs + [o.value]) == (if MaxFromZero(xs) < o.value then o.value else MaxFromZero(xs))
            && Sum(xs + [o.value]) == Sum(xs) + o.value
            && (UsedCount(kept + [o]) > 0 <==> UsedCount(kept) > 0 || o.used)
            && Intersections(kept + [o])
               == (if o.used && UsedCount(kept) > 0 then Intersections(kept) + 1 else Intersections(kept))
  {
    AppendOne(kept, o);
    AccumulateOne(Values(kept), o.value);
  }

  /** How the running minimum, maximum and sum grow by one result. */
  lemma AccumulateOne(xs: seq<real>, x: real)
    ensures MinFromZero(xs + [x]) == if MinFromZero(xs) > x then x else MinFromZero(xs)
    ensures MaxFromZero(xs + [x]) == if MaxFromZero(xs) < x then x else MaxFromZero(xs)
    ensures Sum(xs + [x]) == Sum(xs) + x
  {
    assert (xs + [x])[..|xs|] == xs;
  }

  /** One rule more adds its outcome at the end. */
  lemma OutcomesAppend(rules: seq<string>, rule: string, value: real)
    ensures Outcomes(rules + [rule], value) == Outcomes(rules, value) + [Evaluate(rule, value)]
  {
    assert (rules + [rule])[..|rules|] == rules;
  }

  /** An outcome that is not used is kept by the unused-only filter; a
  zero one leaves every sum unchanged. */
  lemma AppendUnusedZero(os: seq<Outcome>, o: Outcome, only: Option<bool>)
    requires o.value == 0.0 && !o.used
    ensures Kept(os + [o], Some(false)) == Kept(os, Some(false)) + [o]
    ensures Sum(Values(Kept(os + [o], only))) == Sum(Values(Kept(os, only)))
  {
    KeptAppend(os, o, only);
    KeptAppend(os, o, Some(false));
    var k := Kept(os, only);
    if Keep(o, only) {
      AppendOne(k, o);
    } else {
      assert Kept(os + [o], only) == k;
    }
  }

  /** Without a filter, last-one returns the value of the last outcome. */
  lemma LastOneUnfiltered(os: seq<Outcome>, draw: nat)
    requires |os| > 0
    ensures Fold(Kept(os, None), CombineLastOne, draw) == Done(os[|os| - 1].value)
  {
    KeptUnfiltered(os);
    FoldPicks(os, draw);
  }

  /** An erroring rule is not skipped: appending a malformed rule adds a
      kept 0 that is not used, so the sum is unchanged for every filter,
      the unused-only results grow, and last-one returns 0. */
  lemma AppendMalformedRule(rules: seq<string>, bad: string, value: real, only: Option<bool>, draw: nat)
    requires Split(bad).None?
    ensures Outcomes(rules + [bad], value) == Outcomes(rules, value) + [Outcome(0.0, Some(NotParsable(bad)), false)]
    ensures Kept(Outcomes(rules + [bad], value), Some(false))
         == Kept(Outcomes(rules, value), Some(false)) + [Outcome(0.0, Some(NotParsable(bad)), false)]
    ensures Sum(Values(Kept(Outcomes(rules + [bad], value), only))) == Sum(Values(Kept(Outcomes(rules, value), only)))
    ensures ResultFor(rules + [bad], value, CombineLastOne, None, draw) == Done(0.0)
  {
    var os, o := Outcomes(rules, value), Outcome(0.0, Some(NotParsable(bad)), false);
    OutcomesAppend(rules, bad, value);
    AppendUnusedZero(os, o, only);
    LastOneUnfiltered(os + [o], draw);
  }

  /** No kept result: the combiner returns 0 whatever the strategy. */
  lemma NothingKept(kept: seq<Outcome>, combine: int, draw: nat)
    requires kept == []
    ensures Fold(kept, combine, draw) == Done(0.0)
  {
  }

  /** Last-one and first-one pick the last and the first kept result. */
  lemma FoldPicks(kept: seq<Outcome>, draw: nat)
    requires |kept| > 0
    ensures Fold(kept, CombineLastOne, draw) == Done(kept[|kept| - 1].value)
    ensures Fold(kept, CombineFirstOne, draw) == Done(kept[0].value)
  {
    ValuesAt(kept, 0);
    ValuesAt(kept, |kept| - 1);
  }

  /** Sum, average and intersections on a non-empty set of kept results. */
  lemma FoldTotals(kept: seq<Outcome>, draw: nat)
    requires |kept| > 0
    ensures Fold(kept, CombineSum, draw) == Done(Sum(Values(kept)))
    ensures Fold(kept, CombineAvg, draw) == Done(Sum(Values(kept)) / |kept| as real)
    ensures Fold(kept, CombineIntersections, draw) == Done(Intersections(kept) as real)
  {
    ValuesCount(kept);
  }

  /** Because it is seeded with 0, the minimum is at most 0 and at most
      every kept result. */
  lemma FoldMin(kept: seq<Outcome>, draw: nat)
    requires |kept| > 0
    ensures Fold(kept, CombineMin, draw) == Done(MinFromZero(Values(kept)))
    ensures MinFromZero(Values(kept)) <= 0.0
    ensures forall i :: 0 <= i < |kept| ==> MinFromZero(Values(kept)) <= kept[i].value
  {
    ValuesCount(kept);
    MinOfKept(kept);
  }

  lemma MinOfKept(kept: seq<Outcome>)
    ensures MinFromZero(Values(kept)) <= 0.0
    ensures forall i :: 0 <= i < |kept| ==> MinFromZero(Values(kept)) <= kept[i].value
  {
    var xs := Values(kept);
    ValuesLength(kept);
    MinFromZeroBounds(xs);
  }

  /** Because it is seeded with 0, the maximum is at least 0 and at least
      every kept result. */
  lemma FoldMax(kept: seq<Outcome>, draw: nat)
    requires |kept| > 0
    ensures Fold(kept, CombineMax, draw) == Done(MaxFromZero(Values(kept)))
    ensures MaxFromZero(Values(kept)) >= 0.0
    ensures forall i :: 0 <= i < |kept| ==> MaxFromZero(Values(kept)) >= kept[i].value
  {
    ValuesCount(kept);
    MaxOfKept(kept);
  }

  lemma MaxOfKept(kept: seq<Outcome>)
    ensures MaxFromZero(Values(kept)) >= 0.0
    ensures forall i :: 0 <= i < |kept| ==> MaxFromZero(Values(kept)) >= kept[i].value
  {
    var xs := Values(kept);
    ValuesLength(kept);
    MaxFromZeroBounds(xs);
  }

  /** The random pick: one kept result panics (rand.Intn(0)); otherwise the
      pick is one of the results before the last one, and each of those is
      picked by some draw. */
  lemma {:induction false} RandomPick(kept: seq<Outcome>, draw: nat)
    requires |kept| > 0
    ensures |kept| == 1 ==> Fold(kept, CombineRandom, draw) == Panicked(IntnNonPositive)
    ensures |kept| >= 2 ==> exists j :: 0 <= j < |kept| - 1 && Fold(kept, CombineRandom, draw) == Done(kept[j].value)
    ensures forall j :: 0 <= j < |kept| - 1 ==> Fold(kept, CombineRandom, j) == Done(kept[j].value)
  {
    if |kept| == 1 {
      RandomSingle(kept, draw);
    } else {
      RandomDraw(kept, draw);
      forall j | 0 <= j < |kept| - 1
        ensures Fold(kept, CombineRandom, j) == Done(kept[j].value)
      {
        RandomAt(kept, j);
      }
    }
  }

  /** With one kept result rand.Intn(0) panics. */
  lemma RandomSingle(kept: seq<Outcome>, draw: nat)
    requires |kept| == 1
    ensures Fold(kept, CombineRandom, draw) == Panicked(IntnNonPositive)
  {
    ValuesCount(kept);
  }

  /** A draw below n - 1 picks the result at that index. */
  lemma RandomAt(kept: seq<Outcome>, j: nat)
    requires j < |kept| - 1
    ensures Fold(kept, CombineRandom, j) == Done(kept[j].value)
  {
    RandomDraw(kept, j);
    assert j % (|kept| - 1) == j;
  }

  /** With two or more kept results the draw picks index draw % (n - 1). */
  lemma RandomDraw(kept: seq<Outcome>, draw: nat)
    requires |kept| >= 2
    ensures draw % (|kept| - 1) < |kept| - 1
    ensures Fold(kept, CombineRandom, draw) == Done(kept[draw % (|kept| - 1)].value)
  {
    ValuesAt(kept, draw % (|kept| - 1));
  }

  /** The intersection counter counts the used kept results after the
      first; the panicking strategy panics exactly when that count is
      positive and returns 0 otherwise. */
  lemma IntersectionStrategies(kept: seq<Outcome>, draw: nat)
    ensures Fold(kept, CombineIntersections, draw)
            == Done(if UsedCount(kept) == 0 then 0.0 else (UsedCount(kept) - 1) as real)
    ensures Fold(kept, CombineIntersectionPanics, draw)
            == if UsedCount(kept) > 1 then Panicked(IntersectionFound) else Done(0.0)
  {
    UsedCountBound(kept);
    ValuesCount(kept);
  }

  /** Without a filter the intersection count is the number of used rules
      less one; with only-unused it is always 0, so the panicking strategy
      cannot panic. */
  lemma IntersectionsCountUsedRules(os: seq<Outcome>, draw: nat)
    ensures Intersections(os) == if |Kept(os, Some(true))| == 0 then 0 else |Kept(os, Some(true))| - 1
    ensures Fold(Kept(os, Some(false)), CombineIntersections, draw) == Done(0.0)
    ensures Fold(Kept(os, Some(false)), CombineIntersectionPanics, draw) == Done(0.0)
  {
    FilterPartition(os);
    IntersectionStrategies(Kept(os, Some(false)), draw);
  }

  /** Codes outside 1..9 fold to 0. */
  lemma UnknownStrategy(kept: seq<Outcome>, combine: int, draw: nat)
    requires combine < CombineLastOne || combine > CombineIntersectionPanics
    ensures Fold(kept, combine, draw) == Done(0.0)
  {
  }

  /** A single rule through the combiner gives that rule's own value, for
      first-one and last-one alike. */
  lemma SingleRule(rule: string, value: real, draw: nat)
    ensures ResultFor([rule], value, CombineFirstOne, None, draw) == Done(Evaluate(rule, value).value)
    ensures ResultFor([rule], value, CombineLastOne, None, draw) == Done(Evaluate(rule, value).value)
  {
    var os := Outcomes([rule], value);
    OutcomesIndex([rule], value);
    KeptUnfiltered(os);
    FoldPicks(os, draw);
  }
}
