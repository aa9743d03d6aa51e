/** The treasury Monte Carlo path engine: each trial grows three buckets
    (short, medium and long term) year by year by per-bucket samples,
    records the yearly total and a blended yearly return, optionally
    rebalances back to fixed slider percentages, and reports the trial's
    inflation-deflated terminal value and its maximum drawdown. The random
    draws are an input: `samples[t][y][b]` is the draw for bucket `b` in
    year `y` of trial `t`. */
module TreasurySimulator {
  import opened Numeric

  /** A numpy quotient: `Undefined` stands for the nan or infinity that
      numpy yields when an array is divided element-wise by zero. */
  datatype Ratio = Defined(value: real) | Undefined

  datatype Result<T, E> = Success(value: T) | Failure(error: E)

  /** How a simulation stops early: `np.max` of an empty array of drawdowns
      raises, and so does a Python float division by a zero portfolio total. */
  datatype SimulationError = EmptyPath | ZeroTotal

  /** Slider percentages for the three buckets. */
  datatype Percentages = Percentages(short: int, medium: int, long: int)

  /** What a trial carries from year to year: the bucket values and the
      yearly totals recorded so far. */
  datatype PathState = PathState(portfolio: Triple, values: seq<real>)

  /** What a finished trial hands on: its yearly totals and blended returns. */
  datatype TrialRecord = TrialRecord(values: seq<real>, annualReturns: seq<real>)

  /** The three arrays the simulation returns. */
  datatype SimulationResults =
    SimulationResults(finalResults: seq<real>, annualReturns: seq<real>, drawdowns: seq<Ratio>)

  /** The yearly growth the target compounds the corpus by; the target is
      then deflated by the same factor as the terminal values. */
  const TARGET_RETURN: real := 0.072

  function Quotient(x: real, y: real): Ratio
  {
    if y == 0.0 then Undefined else Defined(x / y)
  }

  /** The larger of two quotients; a nan or infinity absorbs everything. */
  function Larger(a: Ratio, b: Ratio): Ratio
  {
    if a.Defined? && b.Defined? then Defined(if a.value < b.value then b.value else a.value)
    else Undefined
  }

  function Max(a: real, b: real): real
  {
    if a < b then b else a
  }

  // ---------------------------------------------------------------------
  // Allocations and rebalancing

  /** The two sliders; the long-term share is what they leave of 100. */
  function SliderPercentages(shortPct: int, mediumPct: int): Percentages
  {
    Percentages(shortPct, mediumPct, 100 - shortPct - mediumPct)
  }

  /** The short slider ranges over 0..100 and the medium one over 0..100 - short. */
  predicate SliderBounds(shortPct: int, mediumPct: int)
  {
    0 <= shortPct <= 100 && 0 <= mediumPct <= 100 - shortPct
  }

  predicate ValidPercentages(pcts: Percentages)
  {
    pcts.short >= 0 && pcts.medium >= 0 && pcts.long >= 0 && pcts.short + pcts.medium + pcts.long == 100
  }

  /** A total split by percentages: the initial allocation and every rebalance.
      The buckets add up to the total scaled by the percentages' sum. */
  function Split(total: real, pcts: Percentages): (a: Triple)
    ensures Total(a) == (pcts.short + pcts.medium + pcts.long) as real / 100.0 * total
  {
    [pcts.short as real / 100.0 * total, pcts.medium as real / 100.0 * total, pcts.long as real / 100.0 * total]
  }

  /** The initial allocation of the corpus is non-negative and conserves it. */
  lemma InitialAllocationsConserve(totalCorpus: real, shortPct: int, mediumPct: int)
    requires SliderBounds(shortPct, mediumPct) && totalCorpus >= 0.0
    ensures ValidPercentages(SliderPercentages(shortPct, mediumPct))
    ensures var a := Split(totalCorpus, SliderPercentages(shortPct, mediumPct));
      a[0] >= 0.0 && a[1] >= 0.0 && a[2] >= 0.0 && Total(a) == totalCorpus
  {
    var p := SliderPercentages(shortPct, mediumPct);
    SplitNonNegative(totalCorpus, p);
    SplitConserves(totalCorpus, p);
  }

  /** Rebalancing keeps the portfolio total when the percentages add up to 100. */
  lemma SplitConserves(total: real, pcts: Percentages)
    requires pcts.short + pcts.medium + pcts.long == 100
    ensures Total(Split(total, pcts)) == total
  {
    calc {
      Total(Split(total, pcts));
      (pcts.short + pcts.medium + pcts.long) as real / 100.0 * total;
      total;
    }
  }

  lemma SplitNonNegative(total: real, pcts: Percentages)
    requires ValidPercentages(pcts) && total >= 0.0
    ensures forall i :: 0 <= i < 3 ==> Split(total, pcts)[i] >= 0.0
  {
    ProductNonNegative(pcts.short as real / 100.0, total);
    ProductNonNegative(pcts.medium as real / 100.0, total);
    ProductNonNegative(pcts.long as real / 100.0, total);
  }

  // ---------------------------------------------------------------------
  // One simulated year

  /** The portfolio after the first `k` buckets (in dict order) have grown. */
  function GrowPrefix(p: Triple, row: Triple, k: nat): Triple
    requires k <= 3
  {
    seq(3, i requires 0 <= i < 3 => if i < k then Grown(p[i], row[i]) else p[i])
  }

  /** One step of the bucket loop: bucket `k` is multiplied by one plus its
      own sample and no other bucket changes. */
  lemma GrowOneBucket(p: Triple, row: Triple, k: nat)
    requires k < 3
    ensures GrowPrefix(p, row, k + 1) == GrowPrefix(p, row, k)[k := Grown(GrowPrefix(p, row, k)[k], row[k])]
  {
  }

  /** Every division in the first `k` steps of the bucket loop is by a
      non-zero total: the total after each of the first `k` buckets has
      grown is not zero. */
  predicate PartialTotalsNonZero(p: Triple, row: Triple, k: nat)
    requires k <= 3
  {
    k == 0 || (PartialTotalsNonZero(p, row, k - 1) && Total(GrowPrefix(p, row, k)) != 0.0)
  }

  /** The sample `r` of one bucket weighted by that bucket's share of the
      current, partially grown, portfolio total. */
  function WeightedReturn(r: real, bucket: real, total: real): (w: real)
    requires total != 0.0
    ensures w * total == r * bucket
  {
    var share := bucket / total;
    assert share * total == bucket;
    assert (r * share) * total == r * (share * total);
    r * share
  }

  /** The blended yearly return accumulated over the first `k` buckets. */
  function YearReturnPrefix(p: Triple, row: Triple, k: nat): (r: real)
    requires k <= 3 && PartialTotalsNonZero(p, row, k)
    ensures (forall j :: 0 <= j < k ==> row[j] == 0.0) ==> r == 0.0
  {
    if k == 0 then 0.0
    else
      var g := GrowPrefix(p, row, k);
      YearReturnPrefix(p, row, k - 1) + WeightedReturn(row[k - 1], g[k - 1], Total(g))
  }

  /** One year of a trial: grow every bucket, record the total after growth
      and before any rebalance, then rebalance if the flag is on. */
  function YearStep(s: PathState, row: Triple, pcts: Percentages, rebalance: bool): (t: PathState)
    ensures |t.values| == |s.values| + 1 && t.values[..|s.values|] == s.values
    ensures t.values[|s.values|] == Total(GrowPrefix(s.portfolio, row, 3))
    ensures !rebalance || pcts.short + pcts.medium + pcts.long == 100 ==>
      Total(t.portfolio) == t.values[|s.values|]
  {
    var grown := GrowPrefix(s.portfolio, row, 3);
    var totalNow := Total(grown);
    PathState(if rebalance then Split(totalNow, pcts) else grown, s.values + [totalNow])
  }

  /** The path of one trial after its first `n` years. */
  function RunPath(allocs: Triple, pcts: Percentages, rebalance: bool, rows: seq<Triple>, n: nat): (s: PathState)
    requires n <= |rows|
    ensures |s.values| == n
  {
    if n == 0 then PathState(allocs, [])
    else YearStep(RunPath(allocs, pcts, rebalance, rows, n - 1), rows[n - 1], pcts, rebalance)
  }

  /** None of the first `n` years divides by a zero total. */
  predicate YearsDivide(allocs: Triple, pcts: Percentages, rebalance: bool, rows: seq<Triple>, n: nat)
    requires n <= |rows|
  {
    n == 0 || (YearsDivide(allocs, pcts, rebalance, rows, n - 1)
               && PartialTotalsNonZero(RunPath(allocs, pcts, rebalance, rows, n - 1).portfolio, rows[n - 1], 3))
  }

  /** The blended returns of the first `n` years. */
  function AnnualReturns(allocs: Triple, pcts: Percentages, rebalance: bool, rows: seq<Triple>, n: nat): (r: seq<real>)
    requires n <= |rows| && YearsDivide(allocs, pcts, rebalance, rows, n)
    ensures |r| == n
  {
    if n == 0 then []
    else AnnualReturns(allocs, pcts, rebalance, rows, n - 1)
         + [YearReturnPrefix(RunPath(allocs, pcts, rebalance, rows, n - 1).portfolio, rows[n - 1], 3)]
  }

  /** One trial driven by the yearly samples `rows`: its recorded totals and
      blended returns, or `ZeroTotal` when some year divides by a zero total. */
  function RunTrial(allocs: Triple, pcts: Percentages, rebalance: bool, rows: seq<Triple>): (r: Result<TrialRecord, SimulationError>)
    ensures r.Success? ==> |r.value.values| == |rows| && |r.value.annualReturns| == |rows|
  {
    if YearsDivide(allocs, pcts, rebalance, rows, |rows|)
    then Success(TrialRecord(RunPath(allocs, pcts, rebalance, rows, |rows|).values,
                             AnnualReturns(allocs, pcts, rebalance, rows, |rows|)))
    else Failure(ZeroTotal)
  }

  // ---------------------------------------------------------------------
  // Drawdown and deflation

  /** `np.maximum.accumulate`: a running maximum, built left to right. */
  function RunningPeak(v: seq<real>): (peak: seq<real>)
    ensures |peak| == |v|
    ensures |v| > 0 ==> peak[0] == v[0]
  {
    if |v| == 0 then []
    else
      var pre := RunningPeak(v[..|v| - 1]);
      pre + [if |pre| == 0 then v[0] else Max(pre[|pre| - 1], v[|v| - 1])]
  }

  /** Element `i` of the running peak is at least each of the first `i + 1` values. */
  lemma {:induction false} RunningPeakBoundsPrefix(v: seq<real>)
    ensures forall i, j :: 0 <= j <= i < |v| ==> v[j] <= RunningPeak(v)[i]
  {
    if |v| > 0 {
      var pre := v[..|v| - 1];
      RunningPeakBoundsPrefix(pre);
      var peak := RunningPeak(v);
      assert peak[..|v| - 1] == RunningPeak(pre);
      forall i, j | 0 <= j <= i < |v| ensures v[j] <= peak[i] {
        if j < |v| - 1 {
          assert v[j] == pre[j];
        }
      }
    }
  }

  /** Element `i` of the running peak is one of the first `i + 1` values. */
  lemma {:induction false} RunningPeakAttained(v: seq<real>, i: nat)
    requires i < |v|
    ensures exists j :: 0 <= j <= i && RunningPeak(v)[i] == v[j]
  {
    var pre := v[..|v| - 1];
    var peak, prePeak := RunningPeak(v), RunningPeak(pre);
    assert peak[..|v| - 1] == prePeak;
    if i < |v| - 1 {
      RunningPeakAttained(pre, i);
      var j :| 0 <= j <= i && prePeak[i] == pre[j];
      assert peak[i] == prePeak[i] && pre[j] == v[j];
    } else if i == 0 {
      assert peak[0] == v[0];
    } else if prePeak[i - 1] < v[i] {
      assert peak[i] == v[i];
    } else {
      RunningPeakAttained(pre, i - 1);
      var j :| 0 <= j <= i - 1 && prePeak[i - 1] == pre[j];
      assert peak[i] == prePeak[i - 1] && pre[j] == v[j];
    }
  }

  /** `(peak - values) / peak`, element by element. */
  function Drawdowns(v: seq<real>): (d: seq<Ratio>)
    ensures |d| == |v|
  {
    var peak := RunningPeak(v);
    seq(|v|, i requires 0 <= i < |v| => Quotient(peak[i] - v[i], peak[i]))
  }

  /** `np.max` of a non-empty array of quotients. */
  function MaxRatio(d: seq<Ratio>): (m: Ratio)
    requires |d| > 0
    ensures m.Defined? ==> m in d
  {
    if |d| == 1 then d[0]
    else Larger(MaxRatio(d[..|d| - 1]), d[|d| - 1])
  }

  /** The maximum is defined exactly when every entry is; then it bounds every
      entry and is one of them. */
  lemma {:induction false} MaxRatioIsMaximum(d: seq<Ratio>)
    requires |d| > 0
    ensures MaxRatio(d).Defined? <==> forall i :: 0 <= i < |d| ==> d[i].Defined?
    ensures MaxRatio(d).Defined? ==> forall i :: 0 <= i < |d| ==> d[i].value <= MaxRatio(d).value
    ensures MaxRatio(d).Defined? ==> exists i :: 0 <= i < |d| && d[i] == MaxRatio(d)
  {
    if |d| > 1 {
      var pre := d[..|d| - 1];
      MaxRatioIsMaximum(pre);
      assert forall i :: 0 <= i < |d| - 1 ==> d[i] == pre[i];
      if MaxRatio(d).Defined? {
        var m := MaxRatio(d);
        if m == d[|d| - 1] {
          assert d[|d| - 1] == m;
        } else {
          var i :| 0 <= i < |pre| && pre[i] == MaxRatio(pre);
          assert d[i] == m;
        }
      }
    }
  }

  function MaxDrawdown(v: seq<real>): (m: Ratio)
    requires |v| > 0
    ensures m.Defined? ==> m in Drawdowns(v)
  {
    MaxRatio(Drawdowns(v))
  }

  /** The terminal value deflated by `(1 + inflation) ** years`. */
  function FinalValue(values: seq<real>, inflation: real, years: nat): (r: real)
    requires |values| > 0 && inflation > -1.0
    ensures r * Pow(1.0 + inflation, years) == values[|values| - 1]
  {
    PowPositive(1.0 + inflation, years);
    values[|values| - 1] / Pow(1.0 + inflation, years)
  }

  // ---------------------------------------------------------------------
  // All trials

  /** Every trial of a run runs to its end. */
  predicate AllTrialsRun(allocs: Triple, pcts: Percentages, rebalance: bool, samples: seq<seq<Triple>>)
  {
    forall i :: 0 <= i < |samples| ==> RunTrial(allocs, pcts, rebalance, samples[i]).Success?
  }

  /** The records of trials that all ran to their end, trial `i` driven by
      `samples[i]`. */
  function Trials(allocs: Triple, pcts: Percentages, rebalance: bool, samples: seq<seq<Triple>>): (trials: seq<TrialRecord>)
    requires AllTrialsRun(allocs, pcts, rebalance, samples)
    ensures |trials| == |samples|
    ensures forall i :: 0 <= i < |samples| ==>
      |trials[i].values| == |samples[i]| && |trials[i].annualReturns| == |samples[i]|
  {
    if |samples| == 0 then []
    else
      var pre := samples[..|samples| - 1];
      assert forall i :: 0 <= i < |pre| ==> pre[i] == samples[i];
      Trials(allocs, pcts, rebalance, pre) + [RunTrial(allocs, pcts, rebalance, samples[|samples| - 1]).value]
  }

  /** Each trial recorded `years` values and `years` yearly returns. */
  predicate WellShaped(trials: seq<TrialRecord>, years: nat)
  {
    forall i :: 0 <= i < |trials| ==> |trials[i].values| == years && |trials[i].annualReturns| == years
  }

  /** The pooled arrays: one terminal value and one max drawdown per trial and
      every trial's yearly returns, in trial order. */
  function Pool(trials: seq<TrialRecord>, inflation: real, years: nat): (r: SimulationResults)
    requires inflation > -1.0 && (years > 0 || |trials| == 0) && WellShaped(trials, years)
    ensures |r.finalResults| == |trials| && |r.drawdowns| == |trials|
    ensures |r.annualReturns| == Offset(|trials|, years)
  {
    if |trials| == 0 then SimulationResults([], [], [])
    else AddTrial(Pool(trials[..|trials| - 1], inflation, years), trials[|trials| - 1], inflation, years)
  }

  /** The pooled arrays after one more trial: its deflated terminal value,
      its yearly returns and its max drawdown are appended. */
  function AddTrial(sofar: SimulationResults, trial: TrialRecord, inflation: real, years: nat): (r: SimulationResults)
    requires inflation > -1.0 && |trial.values| > 0
    ensures |r.finalResults| == |sofar.finalResults| + 1 && |r.drawdowns| == |sofar.drawdowns| + 1
    ensures |r.annualReturns| == |sofar.annualReturns| + |trial.annualReturns|
    ensures r.annualReturns[..|sofar.annualReturns|] == sofar.annualReturns
    ensures r.annualReturns[|sofar.annualReturns|..] == trial.annualReturns
  {
    SimulationResults(sofar.finalResults + [FinalValue(trial.values, inflation, years)],
                      sofar.annualReturns + trial.annualReturns,
                      sofar.drawdowns + [MaxDrawdown(trial.values)])
  }

  /** Trial `i` contributes the `i`-th terminal value, the `i`-th drawdown and
      the `i`-th block of `years` pooled annual returns. */
  lemma {:induction false} PoolEntries(trials: seq<TrialRecord>, inflation: real, years: nat, i: nat)
    requires inflation > -1.0 && years > 0 && WellShaped(trials, years)
    requires i < |trials|
    ensures var r := Pool(trials, inflation, years);
      && r.finalResults[i] == FinalValue(trials[i].values, inflation, years)
      && r.drawdowns[i] == MaxDrawdown(trials[i].values)
      && Offset(i + 1, years) <= |r.annualReturns|
      && r.annualReturns[Offset(i, years) .. Offset(i + 1, years)] == trials[i].annualReturns
  {
    var n := |trials|;
    var r := Pool(trials, inflation, years);
    var pre := trials[..n - 1];
    var prev := Pool(pre, inflation, years);
    if i < n - 1 {
      PoolEntries(pre, inflation, years, i);
      var lo := Offset(i, years);
      assert Offset(i + 1, years) == lo + years;
      SliceOfFront(prev.annualReturns, trials[n - 1].annualReturns, lo, lo + years);
    } else {
      assert Offset(i, years) == |prev.annualReturns|;
    }
  }

  /** A slice that lies within the front part of a concatenation. */
  lemma SliceOfFront<T>(front: seq<T>, back: seq<T>, lo: nat, hi: nat)
    requires lo <= hi <= |front|
    ensures (front + back)[lo .. hi] == front[lo .. hi]
  {
  }

  /** The pooled arrays hold `sims` terminal values, `sims` drawdowns and
      `sims * years` yearly returns. */
  lemma PoolShape(trials: seq<TrialRecord>, inflation: real, years: nat)
    requires inflation > -1.0 && (years > 0 || |trials| == 0) && WellShaped(trials, years)
    ensures var r := Pool(trials, inflation, years);
      |r.finalResults| == |trials| && |r.drawdowns| == |trials| && |r.annualReturns| == |trials| * years
  {
    OffsetIsProduct(|trials|, years);
  }

  /** A zero total after `k` buckets leaves a zero division in the year. */
  lemma {:induction false} TotalsEarlier(p: Triple, row: Triple, m: nat, k: nat)
    requires m <= k <= 3
    ensures PartialTotalsNonZero(p, row, k) ==> PartialTotalsNonZero(p, row, m)
  {
    if m < k {
      TotalsEarlier(p, row, m, k - 1);
    }
  }

  /** The bucket loop of one year: grows each bucket in turn and accumulates
      the blended return against the partially grown total, stopping with
      `ZeroTotal` at the first division by a zero total. */
  method GrowBuckets(portfolio: Triple, row: Triple) returns (outcome: Result<(Triple, real), SimulationError>)
    ensures PartialTotalsNonZero(portfolio, row, 3) ==>
      outcome == Success((GrowPrefix(portfolio, row, 3), YearReturnPrefix(portfolio, row, 3)))
    ensures !PartialTotalsNonZero(portfolio, row, 3) ==> outcome == Failure(ZeroTotal)
  {
    var grown := portfolio;
    var yearlyReturn := 0.0;
    var m := 0;
    while m < 3
      invariant 0 <= m <= 3
      invariant grown == GrowPrefix(portfolio, row, m)
      invariant PartialTotalsNonZero(portfolio, row, m)
      invariant yearlyReturn == YearReturnPrefix(portfolio, row, m)
    {
      GrowOneBucket(portfolio, row, m);
      grown := grown[m := Grown(grown[m], row[m])];
      var total := Total(grown);
      if total == 0.0 {
        TotalsEarlier(portfolio, row, m + 1, 3);
        return Failure(ZeroTotal);
      }
      yearlyReturn := yearlyReturn + WeightedReturn(row[m], grown[m], total);
      m := m + 1;
    }
    return Success((grown, yearlyReturn));
  }

  /** A year whose divisions are all by non-zero totals extends the path,
      the divisibility of the years so far and their returns by one year. */
  lemma PathExtends(allocs: Triple, pcts: Percentages, rebalance: bool, rows: seq<Triple>, y: nat)
    requires y < |rows| && YearsDivide(allocs, pcts, rebalance, rows, y)
    requires PartialTotalsNonZero(RunPath(allocs, pcts, rebalance, rows, y).portfolio, rows[y], 3)
    ensures YearsDivide(allocs, pcts, rebalance, rows, y + 1)
    ensures AnnualReturns(allocs, pcts, rebalance, rows, y + 1)
         == AnnualReturns(allocs, pcts, rebalance, rows, y)
            + [YearReturnPrefix(RunPath(allocs, pcts, rebalance, rows, y).portfolio, rows[y], 3)]
  {
  }

  /** A year that divides by a zero total makes the whole trial stop. */
  lemma PathStops(allocs: Triple, pcts: Percentages, rebalance: bool, rows: seq<Triple>, y: nat)
    requires y < |rows|
    requires !PartialTotalsNonZero(RunPath(allocs, pcts, rebalance, rows, y).portfolio, rows[y], 3)
    ensures RunTrial(allocs, pcts, rebalance, rows) == Failure(ZeroTotal)
  {
    DivideEarlier(allocs, pcts, rebalance, rows, y + 1, |rows|);
  }

  /** The path after `n + 1` years is year `n + 1` applied to the path after
      `n`. */
  lemma PathOneMore(allocs: Triple, pcts: Percentages, rebalance: bool, rows: seq<Triple>, n: nat)
    requires n < |rows|
    ensures RunPath(allocs, pcts, rebalance, rows, n + 1)
         == YearStep(RunPath(allocs, pcts, rebalance, rows, n), rows[n], pcts, rebalance)
  {
  }

  /** The first `n` years divide exactly when the first `n - 1` do and year
      `n` does. */
  lemma DividesOneMore(allocs: Triple, pcts: Percentages, rebalance: bool, rows: seq<Triple>, n: nat)
    requires 0 < n <= |rows|
    ensures YearsDivide(allocs, pcts, rebalance, rows, n)
        <==> YearsDivide(allocs, pcts, rebalance, rows, n - 1)
             && PartialTotalsNonZero(RunPath(allocs, pcts, rebalance, rows, n - 1).portfolio, rows[n - 1], 3)
  {
  }

  /** The returns of the first `n` years extend those of the first `n - 1`
      by year `n`'s blended return. */
  lemma ReturnsOneMore(allocs: Triple, pcts: Percentages, rebalance: bool, rows: seq<Triple>, n: nat)
    requires 0 < n <= |rows| && YearsDivide(allocs, pcts, rebalance, rows, n)
    ensures YearsDivide(allocs, pcts, rebalance, rows, n - 1)
    ensures PartialTotalsNonZero(RunPath(allocs, pcts, rebalance, rows, n - 1).portfolio, rows[n - 1], 3)
    ensures AnnualReturns(allocs, pcts, rebalance, rows, n)
         == AnnualReturns(allocs, pcts, rebalance, rows, n - 1)
            + [YearReturnPrefix(RunPath(allocs, pcts, rebalance, rows, n - 1).portfolio, rows[n - 1], 3)]
  {
  }

  /** A run whose first `n` years divide by non-zero totals also does so in
      its first `m` years, for every `m <= n`. */
  lemma {:induction false} DivideEarlier(allocs: Triple, pcts: Percentages, rebalance: bool, rows: seq<Triple>,
                                         m: nat, n: nat)
    requires m <= n <= |rows|
    ensures YearsDivide(allocs, pcts, rebalance, rows, n) ==> YearsDivide(allocs, pcts, rebalance, rows, m)
  {
    if m < n {
      DivideEarlier(allocs, pcts, rebalance, rows, m, n - 1);
    }
  }

  /** The year loop of one trial: records the post-growth total and the
      blended return of each year, rebalancing after each if the flag is on. */
  method SimulateTrial(allocs: Triple, pcts: Percentages, rebalance: bool, rows: seq<Triple>)
    returns (outcome: Result<TrialRecord, SimulationError>)
    ensures outcome == RunTrial(allocs, pcts, rebalance, rows)
  {
    var portfolio := allocs;
    var values: seq<real> := [];
    var annualReturns: seq<real> := [];
    var y := 0;
    while y < |rows|
      invariant 0 <= y <= |rows|
      invariant PathState(portfolio, values) == RunPath(allocs, pcts, rebalance, rows, y)
      invariant YearsDivide(allocs, pcts, rebalance, rows, y)
      invariant annualReturns == AnnualReturns(allocs, pcts, rebalance, rows, y)
    {
      var year := GrowBuckets(portfolio, rows[y]);
      if year.Failure? {
        PathStops(allocs, pcts, rebalance, rows, y);
        return Failure(ZeroTotal);
      }
      PathExtends(allocs, pcts, rebalance, rows, y);
      portfolio := year.value.0;
      values := values + [Total(portfolio)];
      annualReturns := annualReturns + [year.value.1];
      if rebalance {
        var totalNow := Total(portfolio);
        portfolio := Split(totalNow, pcts);
      }
      y := y + 1;
    }
    return Success(TrialRecord(values, annualReturns));
  }

  /** Trials driven by `years` samples each record `years` values and returns. */
  lemma TrialsShaped(allocs: Triple, pcts: Percentages, rebalance: bool, samples: seq<seq<Triple>>, years: nat)
    requires AllTrialsRun(allocs, pcts, rebalance, samples)
    requires forall i :: 0 <= i < |samples| ==> |samples[i]| == years
    ensures WellShaped(Trials(allocs, pcts, rebalance, samples), years)
  {
  }

  /** The run, trial by trial in sample order: the first trial that divides
      by a zero total stops it with `ZeroTotal`, the first trial with no
      recorded values stops it with `EmptyPath`, and otherwise every trial is
      pooled. */
  function Simulate(allocs: Triple, pcts: Percentages, rebalance: bool, inflation: real, years: nat,
                    samples: seq<seq<Triple>>): Result<SimulationResults, SimulationError>
    requires inflation > -1.0
  {
    if |samples| == 0 then Success(SimulationResults([], [], []))
    else
      var prev := Simulate(allocs, pcts, rebalance, inflation, years, samples[..|samples| - 1]);
      var trial := RunTrial(allocs, pcts, rebalance, samples[|samples| - 1]);
      if prev.Failure? then prev
      else if trial.Failure? then Failure(ZeroTotal)
      else if |trial.value.values| == 0 then Failure(EmptyPath)
      else Success(AddTrial(prev.value, trial.value, inflation, years))
  }

  /** Once a prefix of the trials has stopped the run, the whole run stops
      the same way. */
  lemma {:induction false} StopPersists(allocs: Triple, pcts: Percentages, rebalance: bool, inflation: real,
                                        years: nat, samples: seq<seq<Triple>>, k: nat)
    requires inflation > -1.0 && k <= |samples|
    requires Simulate(allocs, pcts, rebalance, inflation, years, samples[..k]).Failure?
    ensures Simulate(allocs, pcts, rebalance, inflation, years, samples)
         == Simulate(allocs, pcts, rebalance, inflation, years, samples[..k])
    decreases |samples| - k
  {
    if k < |samples| {
      var pre := samples[..|samples| - 1];
      assert pre[..k] == samples[..k];
      StopPersists(allocs, pcts, rebalance, inflation, years, pre, k);
    } else {
      assert samples[..k] == samples;
    }
  }

  /** What a run of `years`-year trials yields: `EmptyPath` when there are
      trials but no years, otherwise `ZeroTotal` exactly when some trial
      divides by a zero total, and the pool of every trial when none does. */
  lemma SimulationOutcome(allocs: Triple, pcts: Percentages, rebalance: bool, inflation: real,
                          years: nat, samples: seq<seq<Triple>>)
    requires inflation > -1.0
    requires forall i :: 0 <= i < |samples| ==> |samples[i]| == years
    ensures years == 0 && |samples| > 0 ==>
      Simulate(allocs, pcts, rebalance, inflation, years, samples) == Failure(EmptyPath)
    ensures years > 0 || |samples| == 0 ==>
      (Simulate(allocs, pcts, rebalance, inflation, years, samples) == Failure(ZeroTotal)
       <==> !AllTrialsRun(allocs, pcts, rebalance, samples))
    ensures (years > 0 || |samples| == 0) && AllTrialsRun(allocs, pcts, rebalance, samples) ==>
      Simulate(allocs, pcts, rebalance, inflation, years, samples)
      == Success(Pool(Trials(allocs, pcts, rebalance, samples), inflation, years))
  {
    if years == 0 {
      if |samples| > 0 {
        NoYearsStops(allocs, pcts, rebalance, inflation, samples);
      }
    } else {
      YearsOutcome(allocs, pcts, rebalance, inflation, years, samples);
    }
  }

  /** Trials without years record no values, so the first one stops the run. */
  lemma {:induction false} NoYearsStops(allocs: Triple, pcts: Percentages, rebalance: bool, inflation: real,
                                        samples: seq<seq<Triple>>)
    requires inflation > -1.0 && |samples| > 0
    requires forall i :: 0 <= i < |samples| ==> |samples[i]| == 0
    ensures Simulate(allocs, pcts, rebalance, inflation, 0, samples) == Failure(EmptyPath)
  {
    var pre := samples[..|samples| - 1];
    if |pre| > 0 {
      NoYearsStops(allocs, pcts, rebalance, inflation, pre);
    } else {
      assert RunTrial(allocs, pcts, rebalance, samples[0]).value.values == [];
    }
  }

  /** With at least one year per trial, the run stops with `ZeroTotal`
      exactly when some trial divides by a zero total, and otherwise pools
      every trial. */
  lemma {:induction false} YearsOutcome(allocs: Triple, pcts: Percentages, rebalance: bool, inflation: real,
                                        years: nat, samples: seq<seq<Triple>>)
    requires inflation > -1.0 && years > 0
    requires forall i :: 0 <= i < |samples| ==> |samples[i]| == years
    ensures AllTrialsRun(allocs, pcts, rebalance, samples) ==>
      Simulate(allocs, pcts, rebalance, inflation, years, samples)
      == Success(Pool(Trials(allocs, pcts, rebalance, samples), inflation, years))
    ensures !AllTrialsRun(allocs, pcts, rebalance, samples) ==>
      Simulate(allocs, pcts, rebalance, inflation, years, samples) == Failure(ZeroTotal)
  {
    if |samples| > 0 {
      var n := |samples|;
      var pre := samples[..n - 1];
      YearsOutcome(allocs, pcts, rebalance, inflation, years, pre);
      RunsSplit(allocs, pcts, rebalance, samples);
      var prev := Simulate(allocs, pcts, rebalance, inflation, years, pre);
      var trial := RunTrial(allocs, pcts, rebalance, samples[n - 1]);
      if !AllTrialsRun(allocs, pcts, rebalance, pre) {
        assert prev == Failure(ZeroTotal);
      } else if trial.Failure? {
        assert prev.Success?;
      } else {
        var trials := Trials(allocs, pcts, rebalance, samples);
        TrialsShaped(allocs, pcts, rebalance, samples, years);
        PoolLast(trials, inflation, years);
        assert trials[..n - 1] == Trials(allocs, pcts, rebalance, pre);
      }
    }
  }

  /** All trials run exactly when all but the last do and the last does too. */
  lemma RunsSplit(allocs: Triple, pcts: Percentages, rebalance: bool, samples: seq<seq<Triple>>)
    requires |samples| > 0
    ensures AllTrialsRun(allocs, pcts, rebalance, samples)
        <==> AllTrialsRun(allocs, pcts, rebalance, samples[..|samples| - 1])
             && RunTrial(allocs, pcts, rebalance, samples[|samples| - 1]).Success?
  {
    var pre := samples[..|samples| - 1];
    assert forall i :: 0 <= i < |pre| ==> pre[i] == samples[i];
  }

  /** Pooling trials adds the last one to the pool of the others. */
  lemma PoolLast(trials: seq<TrialRecord>, inflation: real, years: nat)
    requires inflation > -1.0 && years > 0 && |trials| > 0 && WellShaped(trials, years)
    ensures WellShaped(trials[..|trials| - 1], years)
    ensures Pool(trials, inflation, years)
         == AddTrial(Pool(trials[..|trials| - 1], inflation, years), trials[|trials| - 1], inflation, years)
  {
  }

  /** The simulation loop: `sims` trials of `years` years each. */
  /** One more sample: the run so far stays stopped, or stops on that
      sample's trial, or pools it. */
  lemma SimulateNext(allocs: Triple, pcts: Percentages, rebalance: bool, inflation: real, years: nat,
                     samples: seq<seq<Triple>>, t: nat, trial: Result<TrialRecord, SimulationError>)
    requires inflation > -1.0 && t < |samples|
    requires trial == RunTrial(allocs, pcts, rebalance, samples[t])
    ensures var prev := Simulate(allocs, pcts, rebalance, inflation, years, samples[..t]);
      var next := Simulate(allocs, pcts, rebalance, inflation, years, samples[..t + 1]);
      && (prev.Failure? ==> next == prev)
      && (prev.Success? && trial.Failure? ==> next == Failure(ZeroTotal))
      && (prev.Success? && trial.Success? && |trial.value.values| == 0 ==> next == Failure(EmptyPath))
      && (prev.Success? && trial.Success? && |trial.value.values| > 0 ==>
            next == Success(AddTrial(prev.value, trial.value, inflation, years)))
  {
    assert samples[..t + 1][..t] == samples[..t];
  }

  method MonteCarloSimulation(allocs: Triple, pcts: Percentages, years: nat, sims: nat, rebalance: bool,
                              inflation: real, samples: seq<seq<Triple>>)
    returns (outcome: Result<SimulationResults, SimulationError>)
    requires inflation > -1.0
    requires |samples| == sims
    requires forall i :: 0 <= i < sims ==> |samples[i]| == years
    ensures outcome == Simulate(allocs, pcts, rebalance, inflation, years, samples)
    ensures years == 0 && sims > 0 ==> outcome == Failure(EmptyPath)
    ensures years > 0 || sims == 0 ==>
      (outcome == Failure(ZeroTotal) <==> !AllTrialsRun(allocs, pcts, rebalance, samples))
    ensures (years > 0 || sims == 0) && AllTrialsRun(allocs, pcts, rebalance, samples) ==>
      outcome == Success(Pool(Trials(allocs, pcts, rebalance, samples), inflation, years))
  {
    var finalResults: seq<real> := [];
    var annualReturnsAll: seq<real> := [];
    var drawdownsAll: seq<Ratio> := [];
    outcome := Success(SimulationResults([], [], []));
    var t := 0;
    while t < sims
      invariant 0 <= t <= sims
      invariant outcome == Success(SimulationResults(finalResults, annualReturnsAll, drawdownsAll))
      invariant outcome == Simulate(allocs, pcts, rebalance, inflation, years, samples[..t])
    {
      var trial := SimulateTrial(allocs, pcts, rebalance, samples[t]);
      SimulateNext(allocs, pcts, rebalance, inflation, years, samples, t, trial);
      if trial.Failure? {
        outcome := Failure(ZeroTotal);
        StopPersists(allocs, pcts, rebalance, inflation, years, samples, t + 1);
        break;
      }
      if |trial.value.values| == 0 {
        outcome := Failure(EmptyPath);
        StopPersists(allocs, pcts, rebalance, inflation, years, samples, t + 1);
        break;
      }
      var values := trial.value.values;
      var maxDrawdown := MaxDrawdown(values);
      drawdownsAll := drawdownsAll + [maxDrawdown];
      var finalValue := FinalValue(values, inflation, years);
      finalResults := finalResults + [finalValue];
      annualReturnsAll := annualReturnsAll + trial.value.annualReturns;
      outcome := Success(SimulationResults(finalResults, annualReturnsAll, drawdownsAll));
      t := t + 1;
    }
    assert samples[..sims] == samples;
    SimulationOutcome(allocs, pcts, rebalance, inflation, years, samples);
  }
}
