/** The dashboard's stress test: three independent linear shocks applied to
    the latest portfolio value, weighted by the latest allocation row. */
module Dashboard {
  import opened Numeric

  /** The adverse scenarios, in the order the dashboard evaluates them. */
  datatype Scenario = InterestRateSpike | EquityDrawdown | InflationShock

  const SCENARIOS: seq<Scenario> := [InterestRateSpike, EquityDrawdown, InflationShock]

  /** The outcome of a stress test: one value per scenario, or the failure to
      read a latest allocation from an empty table. */
  datatype StressOutcome = Shocked(values: map<Scenario, real>) | NoAllocationRow

  /** The relative impact of each scenario. */
  function Impact(s: Scenario): real
  {
    match s
    case InterestRateSpike => -0.03
    case EquityDrawdown => -0.10
    case InflationShock => -0.02
  }

  /** The value after scenario `s`, for an allocation row (short, medium,
      long): the rate spike hits the short and medium buckets, the equity
      drawdown the long bucket, the inflation shock the whole value. */
  function ShockedValue(base: real, last: Triple, s: Scenario): (v: real)
    ensures v == base + base * Exposure(last, s) * Impact(s)
  {
    match s
    case InterestRateSpike => base * (1.0 + last[0] * Impact(s) + last[1] * Impact(s))
    case EquityDrawdown => base * (1.0 + last[2] * Impact(s))
    case InflationShock => base * (1.0 + Impact(s))
  }

  /** The share of the allocation a scenario hits. */
  function Exposure(last: Triple, s: Scenario): real
  {
    match s
    case InterestRateSpike => last[0] + last[1]
    case EquityDrawdown => last[2]
    case InflationShock => 1.0
  }

  /** Every scenario's shocked value, all computed from the same base. */
  function StressResults(base: real, last: Triple): (m: map<Scenario, real>)
    ensures m.Keys == {InterestRateSpike, EquityDrawdown, InflationShock}
  {
    map s: Scenario | s in SCENARIOS :: ShockedValue(base, last, s)
  }

  /** What the stress test yields for a whole allocation table: the shocked
      values from its last row, or the failure to read a row from an empty
      table. */
  function StressTest(base: real, table: seq<Triple>): StressOutcome
  {
    if |table| == 0 then NoAllocationRow else Shocked(StressResults(base, table[|table| - 1]))
  }

  /** The stress test: loop over the scenarios and fill a dictionary of
      results from the last row of the allocation table. */
  method SimulateStressScenarios(baseValue: real, allocations: seq<Triple>) returns (outcome: StressOutcome)
    ensures outcome == StressTest(baseValue, allocations)
    ensures |allocations| == 0 <==> outcome == NoAllocationRow
    ensures |allocations| > 0 ==> outcome == Shocked(StressResults(baseValue, allocations[|allocations| - 1]))
  {
    if |allocations| == 0 {
      return NoAllocationRow;
    }
    var last := allocations[|allocations| - 1];
    var results: map<Scenario, real> := map[];
    for i := 0 to |SCENARIOS|
      invariant results.Keys == set j | 0 <= j < i :: SCENARIOS[j]
      invariant forall s :: s in results ==> results[s] == ShockedValue(baseValue, last, s)
    {
      var scenario := SCENARIOS[i];
      var impact := Impact(scenario);
      var adjusted: real;
      if scenario == InterestRateSpike {
        adjusted := baseValue * (1.0 + last[0] * impact + last[1] * impact);
      } else if scenario == EquityDrawdown {
        adjusted := baseValue * (1.0 + last[2] * impact);
      } else {
        adjusted := baseValue * (1.0 + impact);
      }
      results := results[scenario := adjusted];
    }
    assert results.Keys == StressResults(baseValue, last).Keys;
    return Shocked(results);
  }

  // ---------------------------------------------------------------------
  // Properties

  /** Exactly one result per scenario. */
  lemma ThreeResults(base: real, last: Triple)
    ensures |StressResults(base, last)| == 3
  {
    var keys := StressResults(base, last).Keys;
    assert keys == {InterestRateSpike} + {EquityDrawdown} + {InflationShock};
  }

  /** The closed forms: the rate spike takes 3% of the short and medium
      share, the equity drawdown 10% of the long share, the inflation shock
      2% of everything. */
  lemma ClosedForms(base: real, last: Triple)
    ensures StressResults(base, last)[InterestRateSpike] == base * (1.0 - 0.03 * (last[0] + last[1]))
    ensures StressResults(base, last)[EquityDrawdown] == base * (1.0 - 0.10 * last[2])
    ensures StressResults(base, last)[InflationShock] == base * 0.98
  {
    assert 1.0 + last[0] * -0.03 + last[1] * -0.03 == 1.0 - 0.03 * (last[0] + last[1]);
  }

  /** With no long-term holding, the equity drawdown leaves the value as it is. */
  lemma NoEquityNoDrawdown(base: real, last: Triple)
    requires last[2] == 0.0
    ensures StressResults(base, last)[EquityDrawdown] == base
  {
  }

  /** Shocking `base` by a share `x` in [0, 1] of a non-positive `impact`
      lands between the full shock and no shock at all. */
  lemma PartialShockBetween(base: real, x: real, impact: real)
    requires base >= 0.0 && 0.0 <= x <= 1.0 && impact <= 0.0
    ensures base * (1.0 + impact) <= base * (1.0 + x * impact) <= base
  {
    assert (1.0 - x) * impact <= 0.0;
    assert 1.0 + impact <= 1.0 + x * impact <= 1.0;
    assert base * (1.0 + x * impact) - base * (1.0 + impact) == base * ((1.0 + x * impact) - (1.0 + impact));
    assert base - base * (1.0 + x * impact) == base * (1.0 - (1.0 + x * impact));
  }

  /** Weights that are shares of one portfolio. */
  predicate Shares(last: Triple)
  {
    0.0 <= last[0] <= 1.0 && 0.0 <= last[1] <= 1.0 && 0.0 <= last[2] <= 1.0 && Total(last) == 1.0
  }

  /** For a non-negative base and shares that add up to one, every shocked
      value lies between the base shocked in full and the base itself. */
  lemma ShockedValueBounds(base: real, last: Triple, s: Scenario)
    requires base >= 0.0 && Shares(last)
    ensures base * (1.0 + Impact(s)) <= StressResults(base, last)[s] <= base
  {
    match s
    case InterestRateSpike =>
      var x := last[0] + last[1];
      assert 0.0 <= x <= 1.0;
      assert 1.0 + last[0] * Impact(s) + last[1] * Impact(s) == 1.0 + x * Impact(s);
      assert StressResults(base, last)[s] == base * (1.0 + x * Impact(s));
      PartialShockBetween(base, x, Impact(s));
    case EquityDrawdown =>
      PartialShockBetween(base, last[2], Impact(s));
    case InflationShock =>
      PartialShockBetween(base, 1.0, Impact(s));
  }

  /** Only the last allocation row is read: a table gives the same outcome
      as its last row alone, so two tables that end on the same row give the
      same outcome. */
  lemma LastRowOnly(base: real, table1: seq<Triple>, table2: seq<Triple>)
    requires |table1| > 0 && |table2| > 0 && table1[|table1| - 1] == table2[|table2| - 1]
    ensures StressTest(base, table1) == StressTest(base, [table1[|table1| - 1]])
    ensures StressTest(base, table1) == StressTest(base, table2)
  {
  }
}
