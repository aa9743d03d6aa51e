/** What the treasury path engine guarantees: bounds on drawdowns, the effect
    of deflation, conservation under rebalancing, compounding without it,
    and the summary metric that compares terminal values with a target. */
module TreasuryProperties {
  import opened Numeric
  import opened TreasurySimulator

  // ---------------------------------------------------------------------
  // Drawdown

  predicate AllPositive(v: seq<real>)
  {
    forall i :: 0 <= i < |v| ==> v[i] > 0.0
  }

  predicate NonDecreasing(v: seq<real>)
  {
    forall i, j :: 0 <= i <= j < |v| ==> v[i] <= v[j]
  }

  /** The running peak at index `i` is one of the values at or before `i`,
      is at least `v[i]`, and, on a non-decreasing path, is `v[i]` itself. */
  lemma PeakFacts(v: seq<real>, i: nat)
    requires i < |v|
    ensures v[i] <= RunningPeak(v)[i]
    ensures exists j :: 0 <= j <= i && RunningPeak(v)[i] == v[j]
    ensures NonDecreasing(v) ==> RunningPeak(v)[i] == v[i]
  {
    RunningPeakBoundsPrefix(v);
    RunningPeakAttained(v, i);
    if NonDecreasing(v) {
      var j :| 0 <= j <= i && RunningPeak(v)[i] == v[j];
      assert v[j] <= v[i];
    }
  }

  /** A drop from a positive peak to a positive value lies in [0, 1), and is
      zero exactly when the value is the peak. */
  lemma RelativeDrop(peak: real, x: real)
    requires 0.0 < x <= peak
    ensures 0.0 <= (peak - x) / peak < 1.0
    ensures (peak - x) / peak == 0.0 <==> x == peak
  {
    var q := (peak - x) / peak;
    assert q * peak == peak - x;
    assert q >= 0.0 by {
      if q < 0.0 {
        ProductNonNegative(-q, peak);
      }
    }
    assert q < 1.0 by {
      if q >= 1.0 {
        ProductNonNegative(q - 1.0, peak);
      }
    }
  }

  /** The first drawdown is zero: the peak of one value is that value. */
  lemma FirstDrawdownIsZero(v: seq<real>)
    requires |v| > 0 && v[0] != 0.0
    ensures Drawdowns(v)[0] == Defined(0.0)
  {
    PeakFacts(v, 0);
  }

  /** On a path of positive values every drawdown is defined and lies in [0, 1). */
  lemma DrawdownsInUnitInterval(v: seq<real>)
    requires AllPositive(v)
    ensures forall i :: 0 <= i < |v| ==>
      Drawdowns(v)[i].Defined? && 0.0 <= Drawdowns(v)[i].value < 1.0
  {
    forall i | 0 <= i < |v|
      ensures Drawdowns(v)[i].Defined? && 0.0 <= Drawdowns(v)[i].value < 1.0
    {
      PeakFacts(v, i);
      RelativeDrop(RunningPeak(v)[i], v[i]);
    }
  }

  /** On a path of positive values the max drawdown is defined, lies in
      [0, 1), and is at least every drawdown along the path. */
  lemma MaxDrawdownInUnitInterval(v: seq<real>)
    requires |v| > 0 && AllPositive(v)
    ensures MaxDrawdown(v).Defined?
    ensures 0.0 <= MaxDrawdown(v).value < 1.0
    ensures forall i :: 0 <= i < |v| ==>
      Drawdowns(v)[i].Defined? && Drawdowns(v)[i].value <= MaxDrawdown(v).value
  {
    DrawdownsInUnitInterval(v);
    MaxRatioIsMaximum(Drawdowns(v));
    var i :| 0 <= i < |v| && Drawdowns(v)[i] == MaxDrawdown(v);
  }

  /** On a path of positive values the max drawdown is zero exactly when the
      path never falls. */
  lemma MaxDrawdownZeroIffNonDecreasing(v: seq<real>)
    requires |v| > 0 && AllPositive(v)
    ensures MaxDrawdown(v) == Defined(0.0) <==> NonDecreasing(v)
  {
    if MaxDrawdown(v) == Defined(0.0) {
      ZeroDrawdownNeverFalls(v);
    }
    if NonDecreasing(v) {
      RisingPathZeroDrawdown(v);
    }
  }

  /** A zero max drawdown on a positive path means it never falls. */
  lemma ZeroDrawdownNeverFalls(v: seq<real>)
    requires |v| > 0 && AllPositive(v) && MaxDrawdown(v) == Defined(0.0)
    ensures NonDecreasing(v)
  {
    var d := Drawdowns(v);
    var peak := RunningPeak(v);
    MaxDrawdownInUnitInterval(v);
    RunningPeakBoundsPrefix(v);
    forall i, j | 0 <= i <= j < |v| ensures v[i] <= v[j] {
      PeakFacts(v, j);
      RelativeDrop(peak[j], v[j]);
      assert d[j].value <= 0.0;
    }
  }

  /** A path that never falls has a zero max drawdown. */
  lemma RisingPathZeroDrawdown(v: seq<real>)
    requires |v| > 0 && AllPositive(v) && NonDecreasing(v)
    ensures MaxDrawdown(v) == Defined(0.0)
  {
    var d := Drawdowns(v);
    forall i | 0 <= i < |v| ensures d[i] == Defined(0.0) {
      PeakFacts(v, i);
      assert RunningPeak(v)[i] - v[i] == 0.0;
    }
    MaxRatioIsMaximum(d);
    var i :| 0 <= i < |d| && d[i] == MaxRatio(d);
  }

  // ---------------------------------------------------------------------
  // Deflation

  /** With zero inflation the real terminal value is the nominal one. */
  lemma NoInflationKeepsNominal(values: seq<real>, years: nat)
    requires |values| > 0
    ensures FinalValue(values, 0.0, years) == values[|values| - 1]
  {
    PowOfOne(years);
  }

  /** With non-negative inflation a non-negative terminal value can only shrink. */
  lemma DeflationNeverRaises(values: seq<real>, inflation: real, years: nat)
    requires |values| > 0 && inflation >= 0.0 && values[|values| - 1] >= 0.0
    ensures 0.0 <= FinalValue(values, inflation, years) <= values[|values| - 1]
  {
    var x, d := values[|values| - 1], Pow(1.0 + inflation, years);
    PowAtLeastOne(1.0 + inflation, years);
    assert x / d <= x by {
      assert x == (x / d) * d;
    }
  }

  // ---------------------------------------------------------------------
  // Probability of meeting the target

  /** The target: the corpus grown at 7.2% a year, deflated like the results.
      Inflating it back gives the corpus grown at 7.2% a year. */
  function TargetValue(totalCorpus: real, years: nat, inflation: real): (t: real)
    requires inflation > -1.0
    ensures t * Pow(1.0 + inflation, years) == totalCorpus * Pow(1.0 + TARGET_RETURN, years)
  {
    PowPositive(1.0 + inflation, years);
    totalCorpus * Pow(1.0 + TARGET_RETURN, years) / Pow(1.0 + inflation, years)
  }

  /** `np.sum(results >= target)`. */
  function CountAtLeast(results: seq<real>, target: real): (c: nat)
    ensures c <= |results|
  {
    if |results| == 0 then 0
    else CountAtLeast(results[..|results| - 1], target) + (if results[|results| - 1] >= target then 1 else 0)
  }

  /** `np.sum(results >= target) / simulations * 100`; a zero count of
      simulations is numpy's nan. */
  function PercentAboveTarget(results: seq<real>, target: real, simulations: int): (p: Ratio)
    ensures p.Defined? <==> simulations != 0
    ensures p.Defined? ==> p.value * simulations as real == CountAtLeast(results, target) as real * 100.0
  {
    if simulations == 0 then Undefined
    else Defined(CountAtLeast(results, target) as real / simulations as real * 100.0)
  }

  /** Every result meets the target exactly when the count is the full length,
      and none does exactly when the count is zero. */
  lemma {:induction false} CountAtLeastExtremes(results: seq<real>, target: real)
    ensures CountAtLeast(results, target) == |results| <==> forall i :: 0 <= i < |results| ==> results[i] >= target
    ensures CountAtLeast(results, target) == 0 <==> forall i :: 0 <= i < |results| ==> results[i] < target
  {
    if |results| > 0 {
      var pre := results[..|results| - 1];
      CountAtLeastExtremes(pre, target);
      assert forall i :: 0 <= i < |pre| ==> pre[i] == results[i];
    }
  }

  /** A share of `count` out of `n` trials, as a percentage. */
  lemma PercentageBounds(count: nat, n: nat)
    requires 0 < n && count <= n
    ensures 0.0 <= count as real / n as real * 100.0 <= 100.0
    ensures count as real / n as real * 100.0 == 100.0 <==> count == n
    ensures count as real / n as real * 100.0 == 0.0 <==> count == 0
  {
    var c, m := count as real, n as real;
    var f, inv := c / m, 1.0 / m;
    assert m * inv == 1.0;
    assert f == c * inv;
    assert c == f * m;
    ProductNonNegative(c, inv);
    ProductNonNegative(m - c, inv);
    assert (m - c) * inv == 1.0 - f;
    assert 0.0 <= f <= 1.0;
    if count == n {
      assert f == m * inv;
    }
    if count == 0 {
      assert f == 0.0 * inv;
    }
  }

  /** With one result per simulation the percentage lies in [0, 100]; it is 100
      exactly when every result meets the target and 0 exactly when none does. */
  lemma PercentAboveTargetBounds(results: seq<real>, target: real)
    requires |results| > 0
    ensures var p := PercentAboveTarget(results, target, |results|);
      && p.Defined? && 0.0 <= p.value <= 100.0
      && (p.value == 100.0 <==> forall i :: 0 <= i < |results| ==> results[i] >= target)
      && (p.value == 0.0 <==> forall i :: 0 <= i < |results| ==> results[i] < target)
  {
    CountAtLeastExtremes(results, target);
    PercentageBounds(CountAtLeast(results, target), |results|);
  }

  /** Both sides are deflated by the same factor, so a trial meets the target
      exactly when its nominal terminal value reaches the corpus grown at 7.2%. */
  lemma MeetsTargetIffNominal(values: seq<real>, totalCorpus: real, years: nat, inflation: real)
    requires |values| > 0 && inflation > -1.0
    ensures FinalValue(values, inflation, years) >= TargetValue(totalCorpus, years, inflation)
        <==> values[|values| - 1] >= totalCorpus * Pow(1.0 + TARGET_RETURN, years)
  {
    var d := Pow(1.0 + inflation, years);
    PowPositive(1.0 + inflation, years);
    var a, b := values[|values| - 1], totalCorpus * Pow(1.0 + TARGET_RETURN, years);
    assert a == (a / d) * d && b == (b / d) * d;
    if a / d >= b / d {
      assert (a / d) * d >= (b / d) * d;
    }
  }

  // ---------------------------------------------------------------------
  // Rebalancing and drift

  /** After any number of years the carried portfolio totals the last recorded
      value: rebalancing to percentages that add up to 100 moves money between
      buckets without changing the total. */
  lemma PortfolioTotalIsLastValue(allocs: Triple, pcts: Percentages, rebalance: bool, rows: seq<Triple>, n: nat)
    requires 1 <= n <= |rows|
    requires rebalance ==> pcts.short + pcts.medium + pcts.long == 100
    ensures var s := RunPath(allocs, pcts, rebalance, rows, n);
      Total(s.portfolio) == s.values[n - 1]
  {
    var prev := RunPath(allocs, pcts, rebalance, rows, n - 1);
    if rebalance {
      SplitConserves(Total(GrowPrefix(prev.portfolio, rows[n - 1], 3)), pcts);
    }
  }

  /** The target-weighted average of one year's samples. */
  function TargetBlend(pcts: Percentages, row: Triple): real
  {
    pcts.short as real / 100.0 * row[0] + pcts.medium as real / 100.0 * row[1] + pcts.long as real / 100.0 * row[2]
  }

  /** Growing a portfolio split at the target weights by one year of samples
      multiplies its total by one plus the target-weighted sample. */
  lemma SplitGrowth(t: real, pcts: Percentages, row: Triple)
    requires pcts.short + pcts.medium + pcts.long == 100
    ensures Total(GrowPrefix(Split(t, pcts), row, 3)) == t * (1.0 + TargetBlend(pcts, row))
    ensures Total(GrowPrefix(Split(t, pcts), row, 3)) == Grown(t, TargetBlend(pcts, row))
  {
    var a, b, c := pcts.short as real / 100.0, pcts.medium as real / 100.0, pcts.long as real / 100.0;
    assert a + b + c == 1.0;
    calc {
      Total(GrowPrefix(Split(t, pcts), row, 3));
      a * t * (1.0 + row[0]) + b * t * (1.0 + row[1]) + c * t * (1.0 + row[2]);
      t * (a + b + c) + t * (a * row[0] + b * row[1] + c * row[2]);
      t * (1.0 + TargetBlend(pcts, row));
    }
  }

  /** With rebalancing on, every year after the first starts from the target
      weights, so the portfolio grows by exactly the target-weighted sample. */
  lemma RebalancedYearGrowth(allocs: Triple, pcts: Percentages, rows: seq<Triple>, n: nat)
    requires 1 <= n < |rows| && pcts.short + pcts.medium + pcts.long == 100
    ensures RunPath(allocs, pcts, true, rows, n + 1).values[n]
         == RunPath(allocs, pcts, true, rows, n).values[n - 1] * (1.0 + TargetBlend(pcts, rows[n]))
  {
    PathOneMore(allocs, pcts, true, rows, n);
    RebalancedStep(RunPath(allocs, pcts, true, rows, n - 1), rows[n - 1], rows[n], pcts, n);
  }

  /** Of two rebalanced years, the second records the first's total grown by
      the target-weighted sample of the second. */
  lemma RebalancedStep(before: PathState, row: Triple, nextRow: Triple, pcts: Percentages, n: nat)
    requires pcts.short + pcts.medium + pcts.long == 100 && |before.values| == n - 1 && n >= 1
    ensures var prev := YearStep(before, row, pcts, true);
      var next := YearStep(prev, nextRow, pcts, true);
      && |next.values| == n + 1
      && next.values[n] == prev.values[n - 1] * (1.0 + TargetBlend(pcts, nextRow))
  {
    var t := Total(GrowPrefix(before.portfolio, row, 3));
    var prev := YearStep(before, row, pcts, true);
    assert prev.portfolio == Split(t, pcts) && prev.values[n - 1] == t;
    SplitGrowth(t, pcts, nextRow);
  }

  /** The target-weighted sample of each year. */
  function TargetBlends(pcts: Percentages, rows: seq<Triple>): (blends: seq<real>)
    ensures |blends| == |rows|
  {
    seq(|rows|, y requires 0 <= y < |rows| => TargetBlend(pcts, rows[y]))
  }

  /** With rebalancing on and a corpus `c` split at the target percentages,
      the portfolio carried after `n` years is again split at the target
      percentages, now of `c` compounded at the target-weighted sample of
      every year so far. */
  lemma {:induction false} RebalancedPortfolio(c: real, pcts: Percentages, rows: seq<Triple>, n: nat)
    requires n <= |rows| && pcts.short + pcts.medium + pcts.long == 100
    ensures RunPath(Split(c, pcts), pcts, true, rows, n).portfolio
         == Split(Compound(c, TargetBlends(pcts, rows[..n])), pcts)
  {
    if n == 0 {
      assert TargetBlends(pcts, rows[..n]) == [];
    } else {
      RebalancedPortfolio(c, pcts, rows, n - 1);
      RebalancedCompounds(c, pcts, rows, n - 1, n);
    }
  }

  /** A year grown from a split of `c` compounded over the first `m` years
      totals `c` compounded over the first `n = m + 1`. */
  lemma RebalancedCompounds(c: real, pcts: Percentages, rows: seq<Triple>, m: nat, n: nat)
    requires n == m + 1 && n <= |rows| && pcts.short + pcts.medium + pcts.long == 100
    ensures Total(GrowPrefix(Split(Compound(c, TargetBlends(pcts, rows[..m])), pcts), rows[m], 3))
         == Compound(c, TargetBlends(pcts, rows[..n]))
  {
    SplitGrowth(Compound(c, TargetBlends(pcts, rows[..m])), pcts, rows[m]);
    var blends := TargetBlends(pcts, rows[..n]);
    assert blends[..m] == TargetBlends(pcts, rows[..m]);
  }

  /** Hence the value recorded after `n` rebalanced years is `c` compounded
      at the target-weighted sample of every year so far. */
  lemma RebalancedValue(c: real, pcts: Percentages, rows: seq<Triple>, n: nat)
    requires 1 <= n <= |rows| && pcts.short + pcts.medium + pcts.long == 100
    ensures RunPath(Split(c, pcts), pcts, true, rows, n).values[n - 1]
         == c * GrowthFactor(TargetBlends(pcts, rows[..n]))
  {
    RebalancedPortfolio(c, pcts, rows, n);
    PortfolioTotalIsLastValue(Split(c, pcts), pcts, true, rows, n);
    SplitConserves(Compound(c, TargetBlends(pcts, rows[..n])), pcts);
    CompoundedBlends(RunPath(Split(c, pcts), pcts, true, rows, n).values[n - 1], c, pcts, rows, n);
  }

  /** A value equal to `c` compounded at the target-weighted samples of the
      first `n` years is `c` scaled by their growth factor. */
  lemma CompoundedBlends(v: real, c: real, pcts: Percentages, rows: seq<Triple>, n: nat)
    requires n <= |rows| && v == Compound(c, TargetBlends(pcts, rows[..n]))
    ensures v == c * GrowthFactor(TargetBlends(pcts, rows[..n]))
  {
    CompoundIsScaledGrowth(c, TargetBlends(pcts, rows[..n]));
  }

  /** Bucket `b`'s sample in each year. */
  function Column(rows: seq<Triple>, b: nat): (col: seq<real>)
    requires b < 3
    ensures |col| == |rows|
  {
    seq(|rows|, y requires 0 <= y < |rows| => rows[y][b])
  }

  /** An amount compounded year by year at the given rates. */
  function Compound(amount: real, rates: seq<real>): real
  {
    if |rates| == 0 then amount
    else Grown(Compound(amount, rates[..|rates| - 1]), rates[|rates| - 1])
  }

  /** Compounding an amount scales it by the growth factor of the rates. */
  lemma {:induction false} CompoundIsScaledGrowth(amount: real, rates: seq<real>)
    ensures Compound(amount, rates) == amount * GrowthFactor(rates)
  {
    if |rates| > 0 {
      var pre, r := rates[..|rates| - 1], rates[|rates| - 1];
      CompoundIsScaledGrowth(amount, pre);
      assert amount * GrowthFactor(rates) == amount * (GrowthFactor(pre) * (1.0 + r));
    }
  }

  /** Without rebalancing a year grows each bucket by its own sample only. */
  lemma DriftYear(allocs: Triple, pcts: Percentages, rows: seq<Triple>, n: nat, b: nat)
    requires 1 <= n <= |rows| && b < 3
    ensures RunPath(allocs, pcts, false, rows, n).portfolio[b]
         == Grown(RunPath(allocs, pcts, false, rows, n - 1).portfolio[b], rows[n - 1][b])
  {
  }

  /** With rebalancing off the buckets drift apart: each compounds its own
      samples from its initial amount and nothing else. */
  lemma {:induction false} DriftCompoundsEachBucket(allocs: Triple, pcts: Percentages, rows: seq<Triple>, n: nat)
    requires n <= |rows|
    ensures forall b :: 0 <= b < 3 ==>
      RunPath(allocs, pcts, false, rows, n).portfolio[b] == Compound(allocs[b], Column(rows[..n], b))
  {
    if n > 0 {
      DriftCompoundsEachBucket(allocs, pcts, rows, n - 1);
      forall b | 0 <= b < 3
        ensures RunPath(allocs, pcts, false, rows, n).portfolio[b] == Compound(allocs[b], Column(rows[..n], b))
      {
        DriftYear(allocs, pcts, rows, n, b);
        assert Column(rows[..n], b)[..n - 1] == Column(rows[..n - 1], b);
      }
    }
  }

  /** Hence, without rebalancing, the recorded value after `n` years is the
      sum of each initial bucket scaled by its own growth factor. */
  lemma DriftValue(allocs: Triple, pcts: Percentages, rows: seq<Triple>, n: nat)
    requires 1 <= n <= |rows|
    ensures RunPath(allocs, pcts, false, rows, n).values[n - 1]
         == allocs[0] * GrowthFactor(Column(rows[..n], 0))
          + allocs[1] * GrowthFactor(Column(rows[..n], 1))
          + allocs[2] * GrowthFactor(Column(rows[..n], 2))
  {
    DriftCompoundsEachBucket(allocs, pcts, rows, n);
    PortfolioTotalIsLastValue(allocs, pcts, false, rows, n);
    CompoundIsScaledGrowth(allocs[0], Column(rows[..n], 0));
    CompoundIsScaledGrowth(allocs[1], Column(rows[..n], 1));
    CompoundIsScaledGrowth(allocs[2], Column(rows[..n], 2));
  }

  // ---------------------------------------------------------------------
  // Degenerate samples

  predicate ZeroRow(row: Triple)
  {
    row[0] == 0.0 && row[1] == 0.0 && row[2] == 0.0
  }

  /** Zero samples leave every bucket as it was. */
  lemma ZeroRowGrowsNothing(p: Triple, row: Triple, k: nat)
    requires ZeroRow(row) && k <= 3
    ensures GrowPrefix(p, row, k) == p
  {
    assert forall i :: 0 <= i < 3 ==> Grown(p[i], row[i]) == p[i];
    assert forall i :: 0 <= i < 3 ==> GrowPrefix(p, row, k)[i] == p[i];
  }

  /** A year of zero samples, on a portfolio with a non-zero total, divides
      only by that total and reports a zero blended return. */
  lemma {:induction false} ZeroSamplesZeroReturn(p: Triple, row: Triple, k: nat)
    requires ZeroRow(row) && Total(p) != 0.0 && k <= 3
    ensures PartialTotalsNonZero(p, row, k) && YearReturnPrefix(p, row, k) == 0.0
  {
    if k > 0 {
      ZeroSamplesZeroReturn(p, row, k - 1);
      ZeroRowGrowsNothing(p, row, k);
      assert row[k - 1] == 0.0;
    }
  }

  /** One year of zero samples keeps the total, records it and records a
      zero return. */
  lemma ZeroSamplesYear(s: PathState, row: Triple, pcts: Percentages, rebalance: bool)
    requires ZeroRow(row) && Total(s.portfolio) != 0.0
    requires rebalance ==> pcts.short + pcts.medium + pcts.long == 100
    ensures var t := YearStep(s, row, pcts, rebalance);
      && Total(t.portfolio) == Total(s.portfolio)
      && t.values == s.values + [Total(s.portfolio)]
    ensures PartialTotalsNonZero(s.portfolio, row, 3) && YearReturnPrefix(s.portfolio, row, 3) == 0.0
  {
    ZeroRowGrowsNothing(s.portfolio, row, 3);
    ZeroSamplesZeroReturn(s.portfolio, row, 3);
    if rebalance {
      SplitConserves(Total(s.portfolio), pcts);
    }
  }

  /** `n` copies of `x`, appended one at a time. */
  function Repeat(x: real, n: nat): (r: seq<real>)
    ensures |r| == n
  {
    if n == 0 then [] else Repeat(x, n - 1) + [x]
  }

  /** Appending copies of `x` one at a time gives the constant sequence. */
  lemma {:induction false} RepeatIsConstant(x: real, n: nat)
    ensures Repeat(x, n) == seq(n, _ => x)
  {
    if n > 0 {
      RepeatIsConstant(x, n - 1);
      assert seq(n - 1, _ => x) + [x] == seq(n, _ => x);
    }
  }

  /** A non-zero corpus, zero samples every year, and percentages that add
      up to 100 when the portfolio is rebalanced. */
  predicate FlatMarket(allocs: Triple, pcts: Percentages, rebalance: bool, rows: seq<Triple>)
  {
    && Total(allocs) != 0.0
    && (forall y :: 0 <= y < |rows| ==> ZeroRow(rows[y]))
    && (rebalance ==> pcts.short + pcts.medium + pcts.long == 100)
  }

  /** Zero samples from a non-zero corpus keep the portfolio total and record
      it every year. */
  lemma {:induction false} ZeroSamplesFlatPath(allocs: Triple, pcts: Percentages, rebalance: bool,
                                               rows: seq<Triple>, n: nat)
    requires n <= |rows| && FlatMarket(allocs, pcts, rebalance, rows)
    ensures var s := RunPath(allocs, pcts, rebalance, rows, n);
      Total(s.portfolio) == Total(allocs) && s.values == Repeat(Total(allocs), n)
  {
    if n > 0 {
      ZeroSamplesFlatPath(allocs, pcts, rebalance, rows, n - 1);
      ZeroSamplesYear(RunPath(allocs, pcts, rebalance, rows, n - 1), rows[n - 1], pcts, rebalance);
    }
  }

  /** Hence no year of such a trial divides by a zero total. */
  lemma {:induction false} ZeroSamplesDivide(allocs: Triple, pcts: Percentages, rebalance: bool,
                                             rows: seq<Triple>, n: nat)
    requires n <= |rows| && FlatMarket(allocs, pcts, rebalance, rows)
    ensures YearsDivide(allocs, pcts, rebalance, rows, n)
  {
    if n > 0 {
      ZeroSamplesDivide(allocs, pcts, rebalance, rows, n - 1);
      ZeroSamplesFlatPath(allocs, pcts, rebalance, rows, n - 1);
      ZeroSamplesZeroReturn(RunPath(allocs, pcts, rebalance, rows, n - 1).portfolio, rows[n - 1], 3);
      DividesOneMore(allocs, pcts, rebalance, rows, n);
    }
  }

  /** And every year of such a trial records a zero blended return. */
  lemma {:induction false} ZeroSamplesFlatReturns(allocs: Triple, pcts: Percentages, rebalance: bool,
                                                  rows: seq<Triple>, n: nat)
    requires n <= |rows| && FlatMarket(allocs, pcts, rebalance, rows)
    ensures YearsDivide(allocs, pcts, rebalance, rows, n)
    ensures AnnualReturns(allocs, pcts, rebalance, rows, n) == Repeat(0.0, n)
  {
    ZeroSamplesDivide(allocs, pcts, rebalance, rows, n);
    if n > 0 {
      ZeroSamplesFlatReturns(allocs, pcts, rebalance, rows, n - 1);
      ZeroSamplesFlatPath(allocs, pcts, rebalance, rows, n - 1);
      ZeroSamplesZeroReturn(RunPath(allocs, pcts, rebalance, rows, n - 1).portfolio, rows[n - 1], 3);
      ReturnsOneMore(allocs, pcts, rebalance, rows, n);
    }
  }

  /** Hence such a trial runs to its end, recording the corpus and a zero
      return every year. */
  lemma ZeroSamplesTrialRuns(allocs: Triple, pcts: Percentages, rebalance: bool, rows: seq<Triple>)
    requires Total(allocs) != 0.0
    requires forall y :: 0 <= y < |rows| ==> ZeroRow(rows[y])
    requires rebalance ==> pcts.short + pcts.medium + pcts.long == 100
    ensures RunTrial(allocs, pcts, rebalance, rows)
         == Success(TrialRecord(seq(|rows|, _ => Total(allocs)), seq(|rows|, _ => 0.0)))
  {
    ZeroSamplesFlatPath(allocs, pcts, rebalance, rows, |rows|);
    ZeroSamplesFlatReturns(allocs, pcts, rebalance, rows, |rows|);
    RepeatIsConstant(Total(allocs), |rows|);
    RepeatIsConstant(0.0, |rows|);
  }

  /** A zero corpus stops every trial with at least one year: the first bucket
      grows to a zero total, and the blended return divides by it. */
  lemma ZeroCorpusStops(allocs: Triple, pcts: Percentages, rebalance: bool, rows: seq<Triple>)
    requires allocs[0] == 0.0 && allocs[1] == 0.0 && allocs[2] == 0.0
    requires |rows| > 0
    ensures RunTrial(allocs, pcts, rebalance, rows) == Failure(ZeroTotal)
  {
    var row := rows[0];
    assert GrowPrefix(allocs, row, 1) == [Grown(0.0, row[0]), 0.0, 0.0];
    assert Total(GrowPrefix(allocs, row, 1)) == 0.0;
    TotalsEarlier(allocs, row, 1, 3);
    PathStops(allocs, pcts, rebalance, rows, 0);
  }

  // ---------------------------------------------------------------------
  // Solvent paths

  /** No bucket is negative and the portfolio holds something. */
  predicate Solvent(p: Triple)
  {
    p[0] >= 0.0 && p[1] >= 0.0 && p[2] >= 0.0 && Total(p) > 0.0
  }

  /** Every sample is a return above -100%. */
  predicate SamplesAboveMinusOne(rows: seq<Triple>)
  {
    forall y :: 0 <= y < |rows| ==> rows[y][0] > -1.0 && rows[y][1] > -1.0 && rows[y][2] > -1.0
  }

  /** Growing a bucket by a return above -100% keeps its sign. */
  lemma GrownKeepsSign(bucket: real, r: real)
    requires bucket >= 0.0 && r > -1.0
    ensures Grown(bucket, r) >= 0.0
    ensures bucket > 0.0 ==> Grown(bucket, r) > 0.0
  {
    var factor := 1.0 + r;
    assert factor > 0.0;
    if bucket == 0.0 {
      assert Grown(bucket, r) == 0.0 * factor;
    } else {
      assert bucket * factor > 0.0;
    }
  }

  /** A solvent portfolio stays solvent through each bucket of a year of
      samples above -100%, so no weight in the blended return divides by zero. */
  lemma {:induction false} YearKeepsSolvent(p: Triple, row: Triple, k: nat)
    requires k <= 3 && Solvent(p)
    requires row[0] > -1.0 && row[1] > -1.0 && row[2] > -1.0
    ensures Solvent(GrowPrefix(p, row, k))
    ensures PartialTotalsNonZero(p, row, k)
  {
    var g := GrowPrefix(p, row, k);
    GrownKeepsSign(p[0], row[0]);
    GrownKeepsSign(p[1], row[1]);
    GrownKeepsSign(p[2], row[2]);
    assert p[0] > 0.0 || p[1] > 0.0 || p[2] > 0.0;
    assert g[0] > 0.0 || g[1] > 0.0 || g[2] > 0.0;
    if k > 0 {
      YearKeepsSolvent(p, row, k - 1);
    }
  }

  /** From a solvent start, with samples above -100% and (if rebalancing)
      non-negative percentages adding up to 100, a trial stays solvent, every
      recorded value is positive and no year divides by a zero total. */
  lemma {:induction false} TrialStaysSolvent(allocs: Triple, pcts: Percentages, rebalance: bool,
                                             rows: seq<Triple>, n: nat)
    requires n <= |rows| && Solvent(allocs) && SamplesAboveMinusOne(rows)
    requires rebalance ==> ValidPercentages(pcts)
    ensures var s := RunPath(allocs, pcts, rebalance, rows, n);
      Solvent(s.portfolio) && AllPositive(s.values)
    ensures YearsDivide(allocs, pcts, rebalance, rows, n)
  {
    if n > 0 {
      TrialStaysSolvent(allocs, pcts, rebalance, rows, n - 1);
      SolventYear(RunPath(allocs, pcts, rebalance, rows, n - 1), rows[n - 1], pcts, rebalance);
      DividesOneMore(allocs, pcts, rebalance, rows, n);
    }
  }

  /** One year from a solvent portfolio with positive recorded values keeps
      both, and divides by non-zero totals only. */
  lemma SolventYear(s: PathState, row: Triple, pcts: Percentages, rebalance: bool)
    requires Solvent(s.portfolio) && AllPositive(s.values)
    requires row[0] > -1.0 && row[1] > -1.0 && row[2] > -1.0
    requires rebalance ==> ValidPercentages(pcts)
    ensures var t := YearStep(s, row, pcts, rebalance);
      Solvent(t.portfolio) && AllPositive(t.values)
    ensures PartialTotalsNonZero(s.portfolio, row, 3)
  {
    YearKeepsSolvent(s.portfolio, row, 3);
    var total := Total(GrowPrefix(s.portfolio, row, 3));
    if rebalance {
      SplitNonNegative(total, pcts);
      SplitConserves(total, pcts);
    }
    var t := YearStep(s, row, pcts, rebalance);
    assert t.values == s.values + [total];
  }

  /** Hence such a trial runs to its end, and its max drawdown is defined and
      lies in [0, 1). */
  lemma SolventTrialDrawdownBounded(allocs: Triple, pcts: Percentages, rebalance: bool, rows: seq<Triple>)
    requires |rows| > 0 && Solvent(allocs) && SamplesAboveMinusOne(rows)
    requires rebalance ==> ValidPercentages(pcts)
    ensures RunTrial(allocs, pcts, rebalance, rows).Success?
    ensures var v := RunTrial(allocs, pcts, rebalance, rows).value.values;
      MaxDrawdown(v).Defined? && 0.0 <= MaxDrawdown(v).value < 1.0
  {
    TrialStaysSolvent(allocs, pcts, rebalance, rows, |rows|);
    MaxDrawdownInUnitInterval(RunPath(allocs, pcts, rebalance, rows, |rows|).values);
  }

  /** The blended return divides by the portfolio total as it stands after
      each bucket's growth, not by the total after the whole year: a portfolio
      of two equal buckets that both double has grown by 100%, yet the
      recorded yearly return is 7/6. */
  lemma PartialTotalWeighting()
    ensures var p, row := [1.0, 1.0, 0.0], [1.0, 1.0, 0.0];
      && Total(GrowPrefix(p, row, 3)) == 2.0 * Total(p)
      && PartialTotalsNonZero(p, row, 3)
      && YearReturnPrefix(p, row, 3) == 7.0 / 6.0
  {
    var p, row := [1.0, 1.0, 0.0], [1.0, 1.0, 0.0];
    assert GrowPrefix(p, row, 1) == [2.0, 1.0, 0.0];
    assert GrowPrefix(p, row, 2) == [2.0, 2.0, 0.0];
    assert GrowPrefix(p, row, 3) == [2.0, 2.0, 0.0];
  }
}
