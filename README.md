# Treasury strategy engines, modelled in Dafny

The repository is a set of Streamlit pages for planning the investment of a
treasury corpus of 2000 crore across three buckets: short term, medium term and
long term. This project models its four numeric engines and proves properties
about them. All arithmetic is over exact `real`s.

- **Treasury simulator** (`treasury_simulator.dfy`, `treasury_properties.dfy`).
  - Runs Monte Carlo trials. Each trial grows the three buckets year by year by
    per-bucket random returns.
  - Each year it records the portfolio total and a blended yearly return.
  - It can rebalance back to the slider percentages after each year.
  - It reports each trial's inflation-deflated terminal value and its maximum
    drawdown.
  - It also compares the terminal values with a target: the corpus grown at
    7.2% a year, then deflated by the same inflation factor as the terminal
    values.
- **Optimiser** (`optimiser.dfy`). A rolling-window backtest.
  - Weights are fitted on a window of 13 bi-weekly returns and held over the
    next 13.
  - A value of 2000 is compounded over the holding windows, and one record is
    kept per window.
- **Dashboard stress test** (`dashboard.dfy`). Three linear shocks (an interest
  rate spike, an equity drawdown and an inflation shock) are applied to a base
  value. They are weighted by the last row of the allocation table.
- **Return estimator** (`estimator.dfy`).
  - Computes Monte Carlo end values of 500 paths of monthly-compounded returns.
  - Splits the 2000 crore corpus into buckets and instruments, as drawn in the
    fund-flow (Sankey) diagram.

`numeric.dfy` holds the shared pieces:
- the three-bucket vector `Triple`;
- `Total` and `Dot`;
- compounding (`Grown`, `GrowthFactor`);
- whole powers (`Pow`);
- block offsets (`Offset`).

Modelling choices:
- **Random draws.** They are inputs. `samples[t][y][b]` is the draw for
  bucket `b` in year `y` of trial `t`, and `samples[i]` are the monthly draws
  of estimator path `i`. The model holds for every choice of samples.
- **The portfolio optimiser.** `EfficientFrontier(...).max_sharpe()` followed by
  `clean_weights()` is a function parameter `fit` from the fit window's rows to
  a weight vector.
- **Rows and dates.** Dates are row indices. `df.iloc[lo:hi]` is `Rows`, which
  cuts the range at the end of the data as pandas does.
- **numpy division by zero.** numpy's element-wise divisions (the drawdowns,
  treasury_simulator.py:73, and the share of trials above target,
  treasury_simulator.py:92) yield nan or infinity on a zero divisor. The model
  keeps this as the marker `Undefined` of the datatype `Ratio`, and the marker
  absorbs any maximum it enters.
- **Python division by zero.** The blended yearly return
  (treasury_simulator.py:57) divides Python floats, which raises
  `ZeroDivisionError` when the partially grown portfolio total is zero. The
  simulation then stops with `Failure(ZeroTotal)`.
- **Empty arrays.** `np.max` of an empty array raises. A simulation with zero
  years and at least one trial therefore returns `Failure(EmptyPath)`.
- **Empty allocation table.** `iloc[-1]` on an empty allocation table raises,
  so the stress test then returns `NoAllocationRow`.

Two consequences of the code as written:
- **Blended yearly return.** Each bucket's sample is weighted by that bucket's
  share of the portfolio total as it stands right after that bucket has grown,
  while the later buckets are still ungrown. The blended return is therefore
  not the portfolio's growth over the year:
  `TreasuryProperties.PartialTotalWeighting` gives a year in which the
  portfolio doubles and the recorded return is 7/6.
- **Optimiser bounds.** The upper bounds 0.70, 0.15 and 0.15 add up to exactly
  one. Non-negative weights that add up to one and honour them can only be the
  bounds themselves, so every window holds 70/15/15 whenever the solver returns a solution
  (`Optimiser.AdmissibleWeightsAreFixed`, `Optimiser.EveryAllocationIsTheBounds`).

## Model

| member | source | states |
|---|---|---|
| TreasurySimulator.Split | treasury_simulator.py:26-30 | The buckets of a split add up to the total scaled by the sum of the percentages |
| TreasurySimulator.InitialAllocationsConserve | treasury_simulator.py:13-30 | For slider positions in range, the derived long-term share is non-negative, the three percentages add up to 100, and the initial allocation is non-negative and adds up to the corpus |
| TreasurySimulator.SplitConserves | treasury_simulator.py:62-68 | Splitting a total by percentages that add up to 100 keeps the total: rebalancing moves money between buckets and creates none |
| TreasurySimulator.SplitNonNegative | treasury_simulator.py:62-68 | Splitting a non-negative total by valid percentages gives non-negative buckets |
| TreasurySimulator.GrowOneBucket | treasury_simulator.py:54-56 | One step of the bucket loop multiplies only the current bucket by one plus its own sample; the other buckets keep their values |
| TreasurySimulator.WeightedReturn | treasury_simulator.py:57 | The weighted sample times the current total is the sample times the bucket: the sample is weighted by the bucket's share of that total |
| TreasurySimulator.YearReturnPrefix | treasury_simulator.py:52-57 | When every sample seen so far is zero, the blended return accumulated so far is zero |
| TreasurySimulator.TotalsEarlier | treasury_simulator.py:54-57 | If none of the first `k` divisions is by a zero total, none of the first `m <= k` is either |
| TreasurySimulator.YearStep | treasury_simulator.py:50-68 | A year appends exactly one recorded total and keeps the earlier ones; the new entry is the total after every bucket has grown by its sample and before any rebalance; with percentages adding up to 100, or without rebalancing, the carried portfolio totals the newly recorded value |
| TreasurySimulator.RunPath | treasury_simulator.py:45-68 | After `n` years the path has recorded exactly `n` totals |
| TreasurySimulator.AnnualReturns | treasury_simulator.py:48-60 | After `n` years that all divide by non-zero totals there are exactly `n` blended returns |
| TreasurySimulator.RunTrial | treasury_simulator.py:45-68 | A trial that runs to its end has recorded one total and one blended return per year of samples |
| TreasurySimulator.PathOneMore | treasury_simulator.py:50-68 | Proof helper: The path after `n + 1` years is year `n` applied to the path after `n` years |
| TreasurySimulator.DividesOneMore | treasury_simulator.py:50-57 | Proof helper: The first `n` years divide by non-zero totals exactly when the first `n - 1` do and year `n` does |
| TreasurySimulator.ReturnsOneMore | treasury_simulator.py:50-60 | Proof helper: When the first `n` years divide, the returns after `n` years are those after `n - 1` years followed by year `n`'s blended return |
| TreasurySimulator.PathExtends | treasury_simulator.py:50-60 | A year that divides by non-zero totals extends a dividing path by one year and appends its blended return |
| TreasurySimulator.PathStops | treasury_simulator.py:50-57 | A year that divides by a zero total makes the whole trial fail with `ZeroTotal` |
| TreasurySimulator.DivideEarlier | treasury_simulator.py:50-57 | If the first `n` years divide by non-zero totals, so do the first `m <= n` |
| TreasurySimulator.GrowBuckets | treasury_simulator.py:52-57 | The bucket loop grows all three buckets and returns the blended return when every division is by a non-zero total, and raises `ZeroTotal` exactly when some partial total is zero |
| TreasurySimulator.SimulateTrial | treasury_simulator.py:45-68 | The year loop returns exactly the trial specification `RunTrial`: the recorded totals and blended returns, or `ZeroTotal` when some year divides by zero |
| TreasurySimulator.RunningPeak | treasury_simulator.py:72 | The running peak has one entry per value and starts at the first value |
| TreasurySimulator.RunningPeakBoundsPrefix | treasury_simulator.py:72 | Each entry of the running peak is at least every value at or before its index |
| TreasurySimulator.RunningPeakAttained | treasury_simulator.py:72 | Entry `i` of the running peak is one of the values at or before index `i`, so with `RunningPeakBoundsPrefix` it is the maximum of that prefix |
| TreasurySimulator.Drawdowns | treasury_simulator.py:73 | There is one drawdown per recorded value |
| TreasurySimulator.MaxRatio | treasury_simulator.py:74 | A defined maximum is one of the entries |
| TreasurySimulator.MaxRatioIsMaximum | treasury_simulator.py:74 | The maximum drawdown is defined exactly when every drawdown is; then it bounds every drawdown and is one of them |
| TreasurySimulator.MaxDrawdown | treasury_simulator.py:71-74 | A defined max drawdown is one of the path's drawdowns |
| TreasurySimulator.FinalValue | treasury_simulator.py:77 | The real terminal value times the inflation factor `(1 + inflation) ** years` is the last recorded nominal value |
| TreasurySimulator.Trials | treasury_simulator.py:45-68 | When every trial runs to its end there is one record per trial, each with one value and one return per year of its samples |
| TreasurySimulator.TrialsShaped | treasury_simulator.py:45-68 | If every trial has `years` rows of samples, every record has `years` values and `years` returns |
| TreasurySimulator.RunsSplit | treasury_simulator.py:45-68 | All trials run to their end exactly when all but the last do and the last does too |
| TreasurySimulator.Pool | treasury_simulator.py:75-81 | The pooled arrays hold one terminal value and one max drawdown per trial and `years` yearly returns per trial |
| TreasurySimulator.AddTrial | treasury_simulator.py:75-79 | One more trial appends one terminal value and one max drawdown, and appends its yearly returns after the earlier ones, which are kept |
| TreasurySimulator.PoolLast | treasury_simulator.py:75-81 | Proof helper: Pooling all trials is pooling all but the last and then adding the last |
| TreasurySimulator.PoolEntries | treasury_simulator.py:75-81 | Trial `i` supplies the `i`-th terminal value, the `i`-th max drawdown and the `i`-th block of `years` pooled yearly returns, in trial order |
| TreasurySimulator.PoolShape | treasury_simulator.py:79-81 | The pooled yearly returns hold `sims * years` entries |
| TreasurySimulator.StopPersists | treasury_simulator.py:45-81 | Once the trials so far have stopped the run, later trials do not change the outcome |
| TreasurySimulator.SimulateNext | treasury_simulator.py:45-79 | One more trial keeps a stopped run stopped; otherwise it stops the run with `ZeroTotal` if it divides by zero, with `EmptyPath` if it has no years, and else adds its terminal value, returns and max drawdown to the pool |
| TreasurySimulator.NoYearsStops | treasury_simulator.py:71-74 | Trials without years stop the run with `EmptyPath` |
| TreasurySimulator.YearsOutcome | treasury_simulator.py:40-81 | With at least one year, the run fails with `ZeroTotal` exactly when some trial divides by a zero total, and otherwise returns the pool of every trial |
| TreasurySimulator.Simulate | treasury_simulator.py:45-81 | No contract of its own: the reference definition of the whole run, whose meaning `TreasurySimulator.SimulationOutcome`, `TreasurySimulator.YearsOutcome` and `TreasurySimulator.StopPersists` state |
| TreasurySimulator.SimulationOutcome | treasury_simulator.py:40-81 | `EmptyPath` when there are trials but no years; otherwise `ZeroTotal` if and only if some trial divides by a zero total, and the pool of every trial when none does |
| TreasurySimulator.MonteCarloSimulation | treasury_simulator.py:40-81 | The trial loop returns the run specification: `EmptyPath` with zero years and at least one trial, otherwise `ZeroTotal` if and only if some trial divides by a zero total, and the pooled terminal values, yearly returns and max drawdowns of every trial when none does |
| TreasuryProperties.PeakFacts | treasury_simulator.py:72 | The running peak at `i` bounds `v[i]`, is one of the earlier values, and equals `v[i]` on a path that never falls |
| TreasuryProperties.RelativeDrop | treasury_simulator.py:73 | A relative drop from a positive peak to a positive value lies in [0, 1) and is zero exactly when the value is the peak |
| TreasuryProperties.FirstDrawdownIsZero | treasury_simulator.py:72-73 | The first drawdown of a path that does not start at zero is zero |
| TreasuryProperties.DrawdownsInUnitInterval | treasury_simulator.py:71-73 | On a path of positive values every drawdown is defined and lies in [0, 1) |
| TreasuryProperties.MaxDrawdownInUnitInterval | treasury_simulator.py:71-74 | On a path of positive values the max drawdown is defined, lies in [0, 1) and is at least every drawdown along the path |
| TreasuryProperties.MaxDrawdownZeroIffNonDecreasing | treasury_simulator.py:71-74 | On a path of positive values the max drawdown is zero if and only if the path never falls |
| TreasuryProperties.ZeroDrawdownNeverFalls | treasury_simulator.py:71-74 | On a path of positive values a zero max drawdown means the path never falls |
| TreasuryProperties.RisingPathZeroDrawdown | treasury_simulator.py:71-74 | A path of positive values that never falls has a zero max drawdown |
| TreasuryProperties.NoInflationKeepsNominal | treasury_simulator.py:77 | With zero inflation the real terminal value is the nominal one |
| TreasuryProperties.DeflationNeverRaises | treasury_simulator.py:77 | With non-negative inflation a non-negative terminal value can only shrink, and stays non-negative |
| TreasuryProperties.TargetValue | treasury_simulator.py:91 | The target times the inflation factor is the corpus grown at 7.2% a year |
| TreasuryProperties.CountAtLeast | treasury_simulator.py:92 | The count of results that meet the target never exceeds the number of results |
| TreasuryProperties.PercentAboveTarget | treasury_simulator.py:92 | The percentage is defined exactly when the number of simulations is not zero, and is then the count of results meeting the target as a share of 100 per simulation |
| TreasuryProperties.CountAtLeastExtremes | treasury_simulator.py:92 | The count equals the number of results exactly when every result meets the target, and is zero exactly when none does |
| TreasuryProperties.PercentageBounds | treasury_simulator.py:92 | A count out of `n` as a percentage lies in [0, 100]; it is 100 exactly when the count is `n` and 0 exactly when it is 0 |
| TreasuryProperties.PercentAboveTargetBounds | treasury_simulator.py:91-92 | The probability of meeting the target is defined and lies in [0, 100]; it is 100 exactly when every trial meets the target and 0 exactly when none does |
| TreasuryProperties.MeetsTargetIffNominal | treasury_simulator.py:77-92 | Both sides are deflated by the same factor, so a trial meets the real target exactly when its nominal terminal value reaches the corpus grown at 7.2% a year |
| TreasuryProperties.PortfolioTotalIsLastValue | treasury_simulator.py:59-68 | After every year the carried portfolio totals the last recorded value, with or without rebalancing |
| TreasuryProperties.SplitGrowth | treasury_simulator.py:54-68 | Growing a portfolio split at the target weights by one year of samples multiplies its total by one plus the target-weighted sample |
| TreasuryProperties.RebalancedStep | treasury_simulator.py:54-68 | Of two rebalanced years, the second records the first's total grown by one plus the target-weighted sample of the second |
| TreasuryProperties.RebalancedYearGrowth | treasury_simulator.py:54-68 | With rebalancing on, each year after the first grows the recorded value by exactly one plus the target-weighted sample |
| TreasuryProperties.DriftYear | treasury_simulator.py:54-56 | Without rebalancing a year grows each bucket by its own sample only |
| TreasuryProperties.RebalancedPortfolio | treasury_simulator.py:45-68 | With rebalancing on and a corpus split at the target percentages, the portfolio carried after `n` years is again split at those percentages, now of the corpus compounded at the target-weighted sample of every year so far |
| TreasuryProperties.RebalancedCompounds | treasury_simulator.py:54-68 | Proof helper: growing a split of the corpus compounded over `m` years by year `m`'s samples totals the corpus compounded over `m + 1` years |
| TreasuryProperties.RebalancedValue | treasury_simulator.py:45-68 | With rebalancing on, the value recorded after `n` years is the corpus times the growth factor of the target-weighted samples of those `n` years |
| TreasuryProperties.CompoundedBlends | treasury_simulator.py:54-68 | Proof helper: the corpus compounded at the target-weighted samples is the corpus times their growth factor |
| TreasuryProperties.CompoundIsScaledGrowth | treasury_simulator.py:54-56 | Compounding an amount year by year scales it by the growth factor of the rates |
| TreasuryProperties.DriftCompoundsEachBucket | treasury_simulator.py:46-68 | Without rebalancing each bucket compounds its own samples from its initial amount, independently of the other buckets |
| TreasuryProperties.DriftValue | treasury_simulator.py:46-68 | Without rebalancing the recorded value after `n` years is the sum of each initial bucket times the growth factor of its own samples |
| TreasuryProperties.ZeroRowGrowsNothing | treasury_simulator.py:54-56 | A year of zero samples leaves every bucket as it was |
| TreasuryProperties.ZeroSamplesZeroReturn | treasury_simulator.py:52-57 | A year of zero samples on a portfolio with a non-zero total divides by non-zero totals only and records a zero blended return |
| TreasuryProperties.ZeroSamplesYear | treasury_simulator.py:50-68 | A year of zero samples keeps the total, records it, and records a zero return |
| TreasuryProperties.ZeroSamplesFlatPath | treasury_simulator.py:45-68 | Zero samples from a non-zero corpus keep the portfolio total and record the corpus every year |
| TreasuryProperties.ZeroSamplesDivide | treasury_simulator.py:45-57 | No year of such a trial divides by a zero total |
| TreasuryProperties.ZeroSamplesFlatReturns | treasury_simulator.py:45-60 | Every year of such a trial records a zero blended return |
| TreasuryProperties.ZeroSamplesTrialRuns | treasury_simulator.py:45-68 | A trial of zero samples from a non-zero corpus runs to its end, recording the corpus and a zero return every year |
| TreasuryProperties.ZeroCorpusStops | treasury_simulator.py:54-57 | A zero corpus makes every trial with at least one year fail with `ZeroTotal`, because the first division is by a zero total |
| TreasuryProperties.GrownKeepsSign | treasury_simulator.py:56 | Growing a non-negative bucket by a return above -100% keeps it non-negative, and keeps a positive one positive |
| TreasuryProperties.YearKeepsSolvent | treasury_simulator.py:54-57 | Through each bucket of a year of samples above -100% a solvent portfolio stays solvent, so every division of the blended return is by a non-zero total |
| TreasuryProperties.SolventYear | treasury_simulator.py:50-68 | One such year from a solvent portfolio with positive recorded values keeps both and divides by non-zero totals only |
| TreasuryProperties.TrialStaysSolvent | treasury_simulator.py:45-68 | From a solvent start with samples above -100% (and valid percentages if rebalancing), every recorded value is positive and no year divides by a zero total |
| TreasuryProperties.SolventTrialDrawdownBounded | treasury_simulator.py:45-74 | Such a trial runs to its end, and its max drawdown is defined and lies in [0, 1) |
| TreasuryProperties.PartialTotalWeighting | treasury_simulator.py:54-57 | A concrete year (two equal buckets that both double) in which the portfolio grows by 100% but the recorded blended return is 7/6, because each weight divides by the partially grown total |
| Optimiser.RowsCut | optimiser.py:16-29 | `iloc[lo:hi]` is the rows from `lo` to `hi` when both lie in the data, stops at the last row when `hi` lies beyond it, and is empty when `lo` is past the end or not before `hi` |
| Optimiser.NumWindows | optimiser.py:14 | No contract of its own: the number of iterations of the window loop, characterised by `Optimiser.NumWindowsCounts` |
| Optimiser.NumWindowsCounts | optimiser.py:14 | Window `k` exists exactly when its fit window ends before the last row |
| Optimiser.WeightedReturns | optimiser.py:31-32 | There is one weighted return per held row |
| Optimiser.PeriodReturnCompounds | optimiser.py:33 | One plus the period return is the growth factor of the weighted row returns |
| Optimiser.PeriodGrowthIsProduct | optimiser.py:31-33 | The period growth is the product of one plus each weighted row return |
| Optimiser.Step | optimiser.py:15-42 | One window appends exactly one record, keeps the earlier ones, records the start row of the window, and makes the record's value the current value |
| Optimiser.Backtest | optimiser.py:14-42 | The backtest state after `k` windows holds exactly `k` records |
| Optimiser.RollingBacktest | optimiser.py:9-42 | The loop ends with the history and current value of the backtest specification after all `range(0, n - 13, 13)` windows |
| Optimiser.BacktestWindow | optimiser.py:15-42 | One turn of the loop fits on the window's rows, compounds the value over the next rows and appends that window's record, as the specification's step does |
| Optimiser.WindowRows | optimiser.py:15-30 | The rows the loop slices are the window's fit and holding windows, and the holding window is never empty |
| Optimiser.HistoryIsStable | optimiser.py:36-42 | Later windows only append: entry `k` of any longer history is window `k`'s record |
| Optimiser.LastEntryIsRecord | optimiser.py:36-42 | Proof helper: The last entry of the history after `k + 1` windows is window `k`'s record |
| Optimiser.StepKeepsEntry | optimiser.py:36-42 | Proof helper: One more window leaves every earlier entry of the history as it was |
| Optimiser.WindowLengths | optimiser.py:14-30 | Every fit window has exactly `w` rows, and every holding window has `w` rows or, for the last window, the rows that remain, at least one, so the empty-window branch is never taken |
| Optimiser.WindowsAreContiguous | optimiser.py:14-29 | The holding window of one window is the fit window of the next, and the record start rows step by `w` |
| Optimiser.HoldingPeriodsAdjoin | optimiser.py:29-38 | The next window's holding period starts on the row after the previous record's end row |
| Optimiser.NoLookAhead | optimiser.py:15-27 | A window's allocation depends only on the rows up to the end of its fit window |
| Optimiser.RecordsChain | optimiser.py:33-42 | Each record's value is the previous record's value (2000 for the first) grown by the record's own period return, and the current value is the last record's value |
| Optimiser.CompoundOneMore | optimiser.py:33-34 | Compounding a value already grown from 2000 by one more period return is 2000 grown over both stretches |
| Optimiser.ValueIsCompounded | optimiser.py:10-34 | The value after `k` windows is 2000 compounded over every weighted row return held so far, in order |
| Optimiser.RowsAdjoin | optimiser.py:16-29 | Two adjacent `iloc` row ranges together make up the range that spans both |
| Optimiser.HoldWindowsTile | optimiser.py:14-29 | The holding windows of the first `k` windows, concatenated, are exactly the rows from the end of the first fit window to the end of the last holding window |
| Optimiser.HoldWindowsCoverData | optimiser.py:14-29 | Over the whole backtest the holding windows cover every row after the first window, none skipped and none used twice |
| Optimiser.ZeroRowsEarnNothing | optimiser.py:31-33 | Rows of zero returns give a zero period return under any weights |
| Optimiser.FlatReturnsKeepValue | optimiser.py:29-34 | With every return zero the value stays at 2000 whatever the weights |
| Optimiser.AdmissibleWeightsAreFixed | optimiser.py:21-27 | Weights that are non-negative, add up to one and respect the bounds 0.70, 0.15, 0.15 are exactly those bounds |
| Optimiser.EveryAllocationIsTheBounds | optimiser.py:21-39 | When the solver honours its constraints every window records the allocation 70/15/15 |
| Dashboard.ShockedValue | dashboard.py:55-60 | Each shocked value is the base plus the base times the share of the allocation the scenario hits times the scenario's impact |
| Dashboard.StressResults | dashboard.py:48-61 | The results hold one entry for each of the three scenarios and no other |
| Dashboard.Impact | dashboard.py:48-52 | No contract of its own: the three fixed impacts -0.03, -0.10 and -0.02, whose effect `Dashboard.ClosedForms` states |
| Dashboard.SimulateStressScenarios | dashboard.py:47-62 | The loop's outcome is `Dashboard.StressTest` of the base value and the table: it fails exactly when the allocation table is empty, and otherwise maps each scenario to its shocked value from the table's last row |
| Dashboard.ThreeResults | dashboard.py:48-61 | Exactly three results are returned |
| Dashboard.ClosedForms | dashboard.py:55-60 | The rate spike takes 3% of the short and medium share, the equity drawdown 10% of the long share, the inflation shock 2% of the whole value |
| Dashboard.NoEquityNoDrawdown | dashboard.py:57-58 | With no long-term holding the equity drawdown leaves the value unchanged |
| Dashboard.PartialShockBetween | dashboard.py:55-60 | A non-positive impact applied to a share in [0, 1] of a non-negative base lands between the full shock and no shock |
| Dashboard.ShockedValueBounds | dashboard.py:54-61 | For a non-negative base and allocation shares adding up to one, every shocked value lies between the base shocked in full and the base itself |
| Dashboard.LastRowOnly | dashboard.py:54-61 | A non-empty table gives the same stress outcome as its last row alone, so any two tables ending on the same row give the same outcome |
| Estimator.CumulativeGrowth | estimator.py:23 | The cumulative product has one entry per monthly return |
| Estimator.GrowthPath | estimator.py:23 | The growth path has one value per month |
| Estimator.CumulativeGrowthIsProduct | estimator.py:23 | Entry `k` of the cumulative product is the product of one plus each return up to and including month `k` |
| Estimator.GrowthAtMonth | estimator.py:23 | The value at month `k` is the investment compounded over the returns of months 0 to `k` |
| Estimator.EndValue | estimator.py:23-24 | The end value of a path is 2000 compounded over all of its monthly returns |
| Estimator.FlatPathKeepsInvestment | estimator.py:23-24 | A path of zero returns ends at the initial 2000 |
| Estimator.SimulateEndValues | estimator.py:17-24 | The loop yields 500 end values, the `i`-th being 2000 compounded over the returns drawn for path `i` |
| Estimator.Trunc | estimator.py:56-62 | `int()` truncates toward zero: the result lies between zero and its argument, less than one away |
| Estimator.AllocateFunds | estimator.py:49-63 | The three buckets add up to 2000 and each bucket's two instruments add up to the bucket |
| Estimator.BucketsMakeUpCorpus | estimator.py:49-51 | For slider positions the page allows, the long-term bucket is non-negative and the three buckets make up 2000 |
| Estimator.ShareWithin | estimator.py:56-62 | A share of at most one of a non-negative amount, truncated exactly or one unit short as a float product can be, stays between zero and the amount |
| Estimator.AmountsNonNegative | estimator.py:49-63 | For buckets within the corpus, every bucket and instrument amount is non-negative and each first instrument takes at most its bucket |
| Estimator.LinkValues | estimator.py:71-73 | There is one link value per source and target entry |
| Estimator.LinksFormTree | estimator.py:71-72 | Every link flows from a lower to a higher node and no node has two incoming links: the diagram is a tree rooted at the treasury |
| Estimator.FlowSums | estimator.py:71-73 | The treasury sends out the three buckets; each bucket receives its amount and sends out its two instruments |
| Estimator.FlowIsConserved | estimator.py:49-73 | The treasury sends out 2000, every bucket passes on exactly what it receives, and the six instruments hold 2000 between them |

## Left out

- Streamlit widgets, page layout, markdown text, matplotlib histograms and percentile lines, plotly figures and Sankey hover text: presentation only. The sliders are modelled as ranges (`SliderBounds`, `SliderPositions`, `WithinCorpus`).
- Reading the returns CSV, parsing dates and printing the history table: I/O. Rows are indexed by position instead of by date.
- Random number generation (`np.random.seed`, `np.random.normal`) and the investment profiles' means and volatilities: the draws are inputs, so every property holds for any draws.
- The weight solver (`mean_historical_return`, `sample_cov`, `EfficientFrontier.max_sharpe`, `clean_weights`): it is a function parameter. Its failure to find a solution, and the rounding in `clean_weights`, are not modelled.
- Optimiser.RollingBacktest: the record stores the unrounded portfolio value and return instead of `round(..., 2)`. Start and end dates are stored as row indices.
- Dashboard.SimulateStressScenarios: the results are not rounded to two decimals.
- Estimator.AllocateFunds: the truncated shares `fd`, `gsec` and `mf` are inputs rather than computed from floating-point products. `FloatTruncation` lets each be the exact truncation or one less. The doubles nearest 0.57 and 0.6 lie just below those decimals, so a product such as 1400 * 0.57 can fall just short of 798 and truncate to 797. The properties hold for either value.
- Float rounding in general: all arithmetic is exact. nan and infinity from numpy divisions are one `Undefined` marker, without their sign or the difference between them.
- Summary statistics of the treasury simulator and the estimator: the mean, CAGR (a fractional power), the excess returns and Sharpe ratio (mean and standard deviation), and the percentiles. Only the probability of meeting the target is modelled (`TreasuryProperties.PercentAboveTarget`).
- `total_before` in the treasury simulator's year loop is computed and never used, so it has no counterpart.
- The rest of the dashboard and the rest of the repository are not part of this model. That covers the dummy data, the allocation table's construction from the history and the radar chart.
