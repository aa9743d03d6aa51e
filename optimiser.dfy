/** The rolling-window backtest: fit weights on one window of returns, hold
    them over the next window, compound the value and record each window.
    The weight solver is a parameter `fit`; dates are row indices. */
module Optimiser {
  import opened Numeric

  const INITIAL_INVESTMENT: real := 2000.0
  /** Thirteen bi-weekly periods: six months. */
  const REBALANCE_WINDOW: nat := 13
  /** Per-bucket upper bounds handed to the solver. */
  const UPPER_BOUNDS: Triple := [0.70, 0.15, 0.15]

  /** One row of the portfolio history. */
  datatype WindowRecord = WindowRecord(
    startRow: nat,           // first row of the fit window
    endRow: int,             // last row of the holding window
    allocation: Triple,      // weights fitted on the fit window
    portfolioValue: real,    // value after the holding window
    periodReturnPct: real)   // compounded return of the holding window, in percent

  function Min(a: nat, b: nat): nat
  {
    if a <= b then a else b
  }

  /** Rows `lo` up to `hi` (exclusive) of the data, cut at its end, as
      pandas' `iloc[lo:hi]`. */
  function Rows(df: seq<Triple>, lo: nat, hi: nat): seq<Triple>
  {
    var b := Min(hi, |df|);
    df[Min(lo, b) .. b]
  }

  /** `iloc[lo:hi]` is the rows from `lo` to `hi` when both lie in the data,
      stops at the last row when `hi` lies beyond it, and is empty when `lo`
      lies past the end or not before `hi`. */
  lemma RowsCut(df: seq<Triple>, lo: nat, hi: nat)
    ensures lo <= hi <= |df| ==> Rows(df, lo, hi) == df[lo..hi] && |Rows(df, lo, hi)| == hi - lo
    ensures lo <= |df| <= hi ==> Rows(df, lo, hi) == df[lo..] && |Rows(df, lo, hi)| == |df| - lo
    ensures |df| <= lo || hi <= lo ==> Rows(df, lo, hi) == []
  {
  }

  /** Number of windows `range(0, n - w, w)` yields. */
  function NumWindows(n: nat, w: nat): nat
    requires w > 0
    decreases n
  {
    if n <= w then 0 else 1 + NumWindows(n - w, w)
  }

  /** Window `k` exists exactly when its fit window ends before the last row. */
  lemma {:induction false} NumWindowsCounts(n: nat, w: nat, k: nat)
    requires w > 0
    ensures k < NumWindows(n, w) <==> Offset(k, w) + w < n
    decreases n
  {
    if k > 0 && n > w {
      NumWindowsCounts(n - w, w, k - 1);
      assert Offset(k - 1, w) + w == Offset(k, w);
    }
  }

  /** The rows the weights of window `k` are fitted on. */
  function FitWindow(df: seq<Triple>, w: nat, k: nat): seq<Triple>
  {
    Rows(df, Offset(k, w), Offset(k, w) + w)
  }

  /** The rows window `k`'s weights are held over: up to `w` rows after the
      fit window, cut short by the end of the data. */
  function HoldWindow(df: seq<Triple>, w: nat, k: nat): seq<Triple>
  {
    Rows(df, Offset(k, w) + w, Offset(k, w) + w + w)
  }

  /** Each row's return under the given weights, as `returns.dot(weights)`. */
  function WeightedReturns(rows: seq<Triple>, weights: Triple): (r: seq<real>)
    ensures |r| == |rows|
  {
    seq(|rows|, i requires 0 <= i < |rows| => Dot(rows[i], weights))
  }

  /** The product of (1 + row return) over the rows under the given weights. */
  function PeriodGrowth(rows: seq<Triple>, weights: Triple): real
  {
    if |rows| == 0 then 1.0
    else PeriodGrowth(rows[..|rows| - 1], weights) * (1.0 + Dot(rows[|rows| - 1], weights))
  }

  /** `np.prod(1 + weighted_returns) - 1`: one less than the growth factor
      of the weighted row returns. */
  function PeriodReturn(rows: seq<Triple>, weights: Triple): real
  {
    PeriodGrowth(rows, weights) - 1.0
  }

  /** The period return plus one is the growth factor of the weighted row
      returns. */
  lemma PeriodReturnCompounds(rows: seq<Triple>, weights: Triple)
    ensures 1.0 + PeriodReturn(rows, weights) == GrowthFactor(WeightedReturns(rows, weights))
  {
    PeriodGrowthIsProduct(rows, weights);
  }

  /** The backtest after its first `k` windows: the history so far and the
      current portfolio value. */
  datatype BacktestState = BacktestState(history: seq<WindowRecord>, value: real)

  /** Window `k` of the backtest applied to the state before it: fit on the
      fit window, compound the value over the holding window, append the
      window's record. */
  function Step(s: BacktestState, df: seq<Triple>, w: nat, fit: seq<Triple> -> Triple, k: nat): (t: BacktestState)
    ensures |t.history| == |s.history| + 1 && t.history[..|s.history|] == s.history
    ensures t.value == t.history[|s.history|].portfolioValue
    ensures t.history[|s.history|].startRow == Offset(k, w)
  {
    var start := Offset(k, w);
    var weights := fit(FitWindow(df, w, k));
    var totalReturn := PeriodReturn(HoldWindow(df, w, k), weights);
    var value := Grown(s.value, totalReturn);
    BacktestState(s.history + [WindowRecord(start, start + w + |HoldWindow(df, w, k)| - 1, weights, value, totalReturn * 100.0)],
                  value)
  }

  /** The state after the first `k` windows. */
  function Backtest(df: seq<Triple>, w: nat, fit: seq<Triple> -> Triple, k: nat): (s: BacktestState)
    ensures |s.history| == k
  {
    if k == 0 then BacktestState([], INITIAL_INVESTMENT)
    else Step(Backtest(df, w, fit, k - 1), df, w, fit, k - 1)
  }

  /** The backtest loop: for each window of `REBALANCE_WINDOW` rows, fit the
      weights on its rows, hold them over the rows after it, compound the
      value and record the window. */
  method RollingBacktest(df: seq<Triple>, fit: seq<Triple> -> Triple)
    returns (history: seq<WindowRecord>, currentValue: real)
    ensures BacktestState(history, currentValue)
         == Backtest(df, REBALANCE_WINDOW, fit, NumWindows(|df|, REBALANCE_WINDOW))
  {
    var window := REBALANCE_WINDOW;
    currentValue := INITIAL_INVESTMENT;
    history := [];
    var start: nat := 0;
    while start < |df| - window
      invariant start == Offset(|history|, window)
      invariant |history| <= NumWindows(|df|, window)
      invariant BacktestState(history, currentValue) == Backtest(df, window, fit, |history|)
      decreases |df| - start
    {
      NumWindowsCounts(|df|, window, |history|);
      history, currentValue := BacktestWindow(df, window, fit, start, history, currentValue);
      start := start + window;
    }
    NumWindowsCounts(|df|, window, |history|);
  }

  /** One turn of the backtest loop, on the window that starts at `start`. */
  method BacktestWindow(df: seq<Triple>, window: nat, fit: seq<Triple> -> Triple, start: nat,
                        history: seq<WindowRecord>, currentValue: real)
    returns (history': seq<WindowRecord>, currentValue': real)
    requires window > 0 && start == Offset(|history|, window) && start + window < |df|
    ensures BacktestState(history', currentValue') == Step(BacktestState(history, currentValue), df, window, fit, |history|)
  {
    var end := start + window;
    var windowReturns := Rows(df, start, end);
    var weights := fit(windowReturns);
    var nextWindow := Rows(df, end, end + window);
    WindowRows(df, window, |history|, start, end);
    history', currentValue' := history, currentValue;
    if |nextWindow| > 0 {
      var totalReturn := PeriodReturn(nextWindow, weights);
      currentValue' := Grown(currentValue, totalReturn);
      history' := history + [WindowRecord(start, end + |nextWindow| - 1, weights, currentValue', totalReturn * 100.0)];
    }
  }

  /** The rows the loop slices for window `k` are its fit and holding
      windows, and the holding window is not empty. */
  lemma WindowRows(df: seq<Triple>, w: nat, k: nat, start: nat, end: nat)
    requires w > 0 && start == Offset(k, w) && end == start + w && end < |df|
    ensures Rows(df, start, end) == FitWindow(df, w, k)
    ensures Rows(df, end, end + w) == HoldWindow(df, w, k)
    ensures |HoldWindow(df, w, k)| > 0
  {
    assert Min(end + w, |df|) > end;
  }

  /** The record of window `k`. */
  function Record(df: seq<Triple>, w: nat, fit: seq<Triple> -> Triple, k: nat): WindowRecord
  {
    Backtest(df, w, fit, k + 1).history[k]
  }

  // ---------------------------------------------------------------------
  // Properties

  /** Later windows never rewrite earlier records: entry `k` of any longer
      history is window `k`'s record. */
  lemma {:induction false} HistoryIsStable(df: seq<Triple>, w: nat, fit: seq<Triple> -> Triple, n: nat, k: nat)
    requires k < n
    ensures Backtest(df, w, fit, n).history[k] == Record(df, w, fit, k)
  {
    if n > k + 1 {
      HistoryIsStable(df, w, fit, n - 1, k);
      StepKeepsEntry(df, w, fit, n, k);
    } else {
      LastEntryIsRecord(df, w, fit, n, k);
    }
  }

  /** The last entry of a history is that window's record. */
  lemma LastEntryIsRecord(df: seq<Triple>, w: nat, fit: seq<Triple> -> Triple, n: nat, k: nat)
    requires n == k + 1
    ensures Backtest(df, w, fit, n).history[k] == Record(df, w, fit, k)
  {
  }

  /** One more window leaves entry `k` of the history as it was. */
  lemma StepKeepsEntry(df: seq<Triple>, w: nat, fit: seq<Triple> -> Triple, n: nat, k: nat)
    requires k + 1 < n
    ensures Backtest(df, w, fit, n).history[k] == Backtest(df, w, fit, n - 1).history[k]
  {
  }

  /** Every fit window has exactly `w` rows and every holding window between
      one and `w` rows, so the branch that skips an empty holding window is
      never taken. */
  lemma WindowLengths(df: seq<Triple>, w: nat, k: nat)
    requires w > 0 && k < NumWindows(|df|, w)
    ensures |FitWindow(df, w, k)| == w
    ensures 1 <= |HoldWindow(df, w, k)| <= w
    ensures |HoldWindow(df, w, k)| as int
         == if w <= |df| - (Offset(k, w) + w) then w else |df| - (Offset(k, w) + w)
  {
    NumWindowsCounts(|df|, w, k);
  }

  /** Windows advance by `w` rows: the holding window of one window is the
      fit window of the next, and the records' start rows step by `w`. */
  lemma WindowsAreContiguous(df: seq<Triple>, w: nat, fit: seq<Triple> -> Triple, k: nat)
    ensures HoldWindow(df, w, k) == FitWindow(df, w, k + 1)
    ensures Record(df, w, fit, k + 1).startRow == Record(df, w, fit, k).startRow + w
  {
  }

  /** Holding periods adjoin: the holding window of the next window starts
      on the row right after the one the previous record ends on. */
  lemma HoldingPeriodsAdjoin(df: seq<Triple>, w: nat, fit: seq<Triple> -> Triple, k: nat)
    requires w > 0 && k + 1 < NumWindows(|df|, w)
    ensures Record(df, w, fit, k).endRow + 1 == Record(df, w, fit, k + 1).startRow + w
  {
    NumWindowsCounts(|df|, w, k + 1);
    assert |HoldWindow(df, w, k)| == w;
  }

  /** The allocation of window `k` depends only on the rows up to the end of
      its fit window: the backtest does not look ahead. */
  lemma NoLookAhead(df1: seq<Triple>, df2: seq<Triple>, w: nat, fit: seq<Triple> -> Triple, k: nat)
    requires Offset(k, w) + w <= |df1| && Offset(k, w) + w <= |df2|
    requires df1[..Offset(k, w) + w] == df2[..Offset(k, w) + w]
    ensures Record(df1, w, fit, k).allocation == Record(df2, w, fit, k).allocation
  {
    assert FitWindow(df1, w, k) == df1[..Offset(k, w) + w][Offset(k, w)..];
    assert FitWindow(df2, w, k) == df2[..Offset(k, w) + w][Offset(k, w)..];
  }

  /** Each record's value is the previous record's value (the initial
      investment for the first) grown by the record's own period return, and
      the current value is the last record's value. */
  lemma RecordsChain(df: seq<Triple>, w: nat, fit: seq<Triple> -> Triple, k: nat)
    ensures var previous := if k == 0 then INITIAL_INVESTMENT else Record(df, w, fit, k - 1).portfolioValue;
      Record(df, w, fit, k).portfolioValue == Grown(previous, Record(df, w, fit, k).periodReturnPct / 100.0)
    ensures Record(df, w, fit, k).portfolioValue == Backtest(df, w, fit, k + 1).value
  {
    var weights := fit(FitWindow(df, w, k));
    var r := PeriodReturn(HoldWindow(df, w, k), weights);
    assert r * 100.0 / 100.0 == r;
    if k > 0 {
      assert Backtest(df, w, fit, k).history[k - 1] == Record(df, w, fit, k - 1);
    }
  }

  /** The recursive product is `np.prod(1 + weighted_returns)`. */
  lemma {:induction false} PeriodGrowthIsProduct(rows: seq<Triple>, weights: Triple)
    ensures PeriodGrowth(rows, weights) == GrowthFactor(WeightedReturns(rows, weights))
  {
    if |rows| > 0 {
      var n := |rows| - 1;
      PeriodGrowthIsProduct(rows[..n], weights);
      assert WeightedReturns(rows, weights)[..n] == WeightedReturns(rows[..n], weights);
    }
  }

  /** The per-row returns earned over the first `k` holding windows, in order. */
  function HeldReturns(df: seq<Triple>, w: nat, fit: seq<Triple> -> Triple, k: nat): seq<real>
  {
    if k == 0 then []
    else HeldReturns(df, w, fit, k - 1) + WeightedReturns(HoldWindow(df, w, k - 1), fit(FitWindow(df, w, k - 1)))
  }

  /** Compounding a scaled amount by one more period return. */
  lemma ScaleStep(v: real, c: real, a: real, b: real, r: real, g: real)
    requires v == c * a && r == b - 1.0 && g == a * b
    ensures Grown(v, r) == c * g
  {
  }

  /** A value compounded over `before` and then by the period return of
      `rows` under `weights` is the initial investment compounded over both. */
  lemma CompoundOneMore(v: real, before: seq<real>, rows: seq<Triple>, weights: Triple)
    requires v == INITIAL_INVESTMENT * GrowthFactor(before)
    ensures Grown(v, PeriodReturn(rows, weights))
         == INITIAL_INVESTMENT * GrowthFactor(before + WeightedReturns(rows, weights))
  {
    var held := WeightedReturns(rows, weights);
    GrowthFactorAppend(before, held);
    PeriodGrowthIsProduct(rows, weights);
    ScaleStep(v, INITIAL_INVESTMENT, GrowthFactor(before), GrowthFactor(held),
              PeriodReturn(rows, weights), GrowthFactor(before + held));
  }

  /** The value after `k` windows is the initial investment compounded over
      every row return earned so far. */
  lemma {:induction false} ValueIsCompounded(df: seq<Triple>, w: nat, fit: seq<Triple> -> Triple, k: nat)
    ensures Backtest(df, w, fit, k).value == INITIAL_INVESTMENT * GrowthFactor(HeldReturns(df, w, fit, k))
  {
    if k > 0 {
      ValueIsCompounded(df, w, fit, k - 1);
      CompoundOneMore(Backtest(df, w, fit, k - 1).value, HeldReturns(df, w, fit, k - 1),
                      HoldWindow(df, w, k - 1), fit(FitWindow(df, w, k - 1)));
    }
  }

  /** The rows held over the first `k` windows, in order. */
  function HeldRows(df: seq<Triple>, w: nat, k: nat): seq<Triple>
  {
    if k == 0 then [] else HeldRows(df, w, k - 1) + HoldWindow(df, w, k - 1)
  }

  /** Two adjacent row ranges make up the range that spans both. */
  lemma RowsAdjoin(df: seq<Triple>, lo: nat, mid: nat, hi: nat)
    requires lo <= mid <= hi
    ensures Rows(df, lo, mid) + Rows(df, mid, hi) == Rows(df, lo, hi)
  {
    var a, b, c := Min(lo, |df|), Min(mid, |df|), Min(hi, |df|);
    assert df[a..b] + df[b..c] == df[a..c];
  }

  /** The holding windows of the first `k` windows are exactly the rows from
      the end of the first fit window up to the end of window `k - 1`'s
      holding window: none skipped and none used twice. */
  lemma {:induction false} HoldWindowsTile(df: seq<Triple>, w: nat, k: nat)
    ensures HeldRows(df, w, k) == Rows(df, w, Offset(k, w) + w)
  {
    if k > 0 {
      HoldWindowsTile(df, w, k - 1);
      var mid := Offset(k - 1, w) + w;
      assert Offset(k, w) + w == mid + w;
      RowsAdjoin(df, w, mid, mid + w);
    }
  }

  /** Over all windows the holding windows cover every row after the first
      window. */
  lemma HoldWindowsCoverData(df: seq<Triple>, w: nat)
    requires w > 0 && |df| > w
    ensures HeldRows(df, w, NumWindows(|df|, w)) == df[w..]
  {
    var n := NumWindows(|df|, w);
    NumWindowsCounts(|df|, w, n);
    HoldWindowsTile(df, w, n);
    assert Min(Offset(n, w) + w, |df|) == |df|;
  }

  /** Flat markets: with every return zero the value never moves from the
      initial investment, whatever the weights. */
  lemma {:induction false} FlatReturnsKeepValue(df: seq<Triple>, w: nat, fit: seq<Triple> -> Triple, k: nat)
    requires forall i :: 0 <= i < |df| ==> df[i] == [0.0, 0.0, 0.0]
    ensures Backtest(df, w, fit, k).value == INITIAL_INVESTMENT
  {
    if k > 0 {
      FlatReturnsKeepValue(df, w, fit, k - 1);
      var rows := HoldWindow(df, w, k - 1);
      assert forall i :: 0 <= i < |rows| ==> rows[i] == [0.0, 0.0, 0.0];
      ZeroRowsEarnNothing(rows, fit(FitWindow(df, w, k - 1)));
    }
  }

  /** Rows of zero returns earn nothing under any weights. */
  lemma ZeroRowsEarnNothing(rows: seq<Triple>, weights: Triple)
    requires forall i :: 0 <= i < |rows| ==> rows[i] == [0.0, 0.0, 0.0]
    ensures PeriodReturn(rows, weights) == 0.0
  {
    PeriodReturnCompounds(rows, weights);
    GrowthFactorOfZeros(WeightedReturns(rows, weights));
  }

  /** Weights the solver may return: non-negative, adding up to one, and
      within the per-bucket upper bounds. */
  predicate Admissible(weights: Triple)
  {
    && 0.0 <= weights[0] <= UPPER_BOUNDS[0]
    && 0.0 <= weights[1] <= UPPER_BOUNDS[1]
    && 0.0 <= weights[2] <= UPPER_BOUNDS[2]
    && Total(weights) == 1.0
  }

  /** The upper bounds add up to exactly one, so they leave the solver no
      choice: the only admissible weights are the bounds themselves. */
  lemma AdmissibleWeightsAreFixed(weights: Triple)
    ensures Admissible(weights) <==> weights == UPPER_BOUNDS
  {
    if Admissible(weights) {
      assert weights[0] == 0.70 && weights[1] == 0.15 && weights[2] == 0.15;
      assert weights == [0.70, 0.15, 0.15];
    }
  }

  /** Hence, when the solver honours its constraints, every window records
      the same allocation 70/15/15. */
  lemma EveryAllocationIsTheBounds(df: seq<Triple>, w: nat, fit: seq<Triple> -> Triple, k: nat)
    requires forall rows :: Admissible(fit(rows))
    ensures Record(df, w, fit, k).allocation == UPPER_BOUNDS
  {
    AdmissibleWeightsAreFixed(fit(FitWindow(df, w, k)));
  }
}
