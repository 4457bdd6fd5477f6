/** The nine strategy codes of scale_rules.go. */
module CombineFunctions {

  const CombineLastOne: int := 1
  const CombineFirstOne: int := 2
  const CombineRandom: int := 3
  const CombineAvg: int := 4
  const CombineMax: int := 5
  const CombineMin: int := 6
  const CombineSum: int := 7
  const CombineIntersections: int := 8
  const CombineIntersectionPanics: int := 9

  function Codes(): (cs: seq<int>)
    ensures |cs| == 9
  {
    [CombineLastOne, CombineFirstOne, CombineRandom, CombineAvg, CombineMax,
     CombineMin, CombineSum, CombineIntersections, CombineIntersectionPanics]
  }

  /** The codes are the distinct integers 1 through 9, in declaration order. */
  lemma CodesAreOneToNine()
    ensures forall i :: 0 <= i < 9 ==> Codes()[i] == i + 1
    ensures forall i, j :: 0 <= i < j < 9 ==> Codes()[i] != Codes()[j]
  {
  }
}

/** The facade of scale_rules.go: a ScaleRules object holding the rule
    container, the strategy code and the optional "only" filter, with
    setters and the two evaluation entry points. */
module ScaleRulesFacade {
  import opened Wrappers
  import opened CombineFunctions
  import opened Combiner

  /** Go's int(x) for a float64 x: truncation toward zero. */
  function TruncateTowardZero(x: real): (n: int)
    ensures 0.0 <= x ==> 0 <= n && n as real <= x < n as real + 1.0
    ensures x < 0.0 ==> n <= 0 && n as real - 1.0 < x <= n as real
  {
    if x >= 0.0 then x.Floor else -((-x).Floor)
  }

  class ScaleRules {
    /** The rule set; None is the nil *Rules pointer. */
    var rulesContainer: Option<seq<string>>
    var combine: int
    /** The filter; None is the nil *bool pointer. */
    var useResultsOnly: Option<bool>

    /** NewScaleRules: last-one strategy, no rules, no filter. */
    constructor ()
      ensures combine == CombineLastOne
      ensures rulesContainer == None && useResultsOnly == None
    {
      rulesContainer := None;
      combine := CombineLastOne;
      useResultsOnly := None;
    }

    method SetCombineFunction(c: int)
      modifies this
      ensures combine == c
      ensures rulesContainer == old(rulesContainer) && useResultsOnly == old(useResultsOnly)
    {
      combine := c;
    }

    method SetUseOnly(t: bool)
      modifies this
      ensures useResultsOnly == Some(t)
      ensures rulesContainer == old(rulesContainer) && combine == old(combine)
    {
      useResultsOnly := Some(t);
    }

    method SetRules(rules: Option<seq<string>>)
      modifies this
      ensures rulesContainer == rules
      ensures combine == old(combine) && useResultsOnly == old(useResultsOnly)
    {
      rulesContainer := rules;
    }

    /** What Float returns in the current state; ranging over the nil
        container panics. */
    function Current(value: real, draw: nat): Completion<real>
      reads this
    {
      match rulesContainer
      case None => Panicked(NilRules)
      case Some(rules) => ResultFor(rules, value, combine, useResultsOnly, draw)
    }

    method Float(value: real, draw: nat) returns (r: Completion<real>)
      ensures r == Current(value, draw)
    {
      match rulesContainer
      case None => r := Panicked(NilRules);
      case Some(rules) => r := ResultForVal(rules, value, combine, useResultsOnly, draw);
    }

    method Int(value: int, draw: nat) returns (r: Completion<int>)
      ensures Current(value as real, draw).Panicked? ==> r == Panicked(Current(value as real, draw).cause)
      ensures Current(value as real, draw).Done? ==>
                r == Done(TruncateTowardZero(Current(value as real, draw).value))
    {
      var f := Float(value as real, draw);
      match f
      case Panicked(cause) => r := Panicked(cause);
      case Done(x) => r := Done(TruncateTowardZero(x));
    }
  }
}
