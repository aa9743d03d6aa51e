/** The return estimator: Monte Carlo end values of monthly-compounded paths
    and the split of the 2000 Cr treasury into buckets and instruments shown
    as a fund-flow (Sankey) diagram. The normal samples are an input. */
module Estimator {
  import opened Numeric

  const INITIAL_INVESTMENT: real := 2000.0
  const N_YEARS: nat := 10
  const N_SIMULATIONS: nat := 500
  /** Returns drawn per path: one per month. */
  const N_MONTHS: nat := N_YEARS * 12

  // ---------------------------------------------------------------------
  // Growth paths

  /** `np.cumprod(1 + returns)`: each entry is the previous one times
      (1 + the next return), the first is 1 + the first return. */
  function CumulativeGrowth(monthly: seq<real>): (c: seq<real>)
    ensures |c| == |monthly|
  {
    if |monthly| == 0 then []
    else
      var prefix := CumulativeGrowth(monthly[..|monthly| - 1]);
      var previous := if |prefix| == 0 then 1.0 else prefix[|prefix| - 1];
      prefix + [previous * (1.0 + monthly[|monthly| - 1])]
  }

  /** `initial_investment * np.cumprod(1 + returns)`. */
  function GrowthPath(initial: real, monthly: seq<real>): (g: seq<real>)
    ensures |g| == |monthly|
  {
    var c := CumulativeGrowth(monthly);
    seq(|c|, k requires 0 <= k < |c| => initial * c[k])
  }

  /** The running product is the growth factor of the returns so far. */
  lemma {:induction false} CumulativeGrowthIsProduct(monthly: seq<real>, k: nat)
    requires k < |monthly|
    ensures CumulativeGrowth(monthly)[k] == GrowthFactor(monthly[..k + 1])
  {
    var n := |monthly| - 1;
    var prefix := CumulativeGrowth(monthly[..n]);
    if k < n {
      CumulativeGrowthIsProduct(monthly[..n], k);
      assert monthly[..n][..k + 1] == monthly[..k + 1];
    } else if n > 0 {
      CumulativeGrowthIsProduct(monthly[..n], n - 1);
      assert monthly[..n][..n] == monthly[..n];
      assert monthly[..k + 1] == monthly;
    } else {
      assert monthly[..k + 1] == monthly;
      assert monthly[..0] == [];
    }
  }

  /** Growth at month `k` is the initial investment compounded over the
      returns up to and including month `k`. */
  lemma GrowthAtMonth(initial: real, monthly: seq<real>, k: nat)
    requires k < |monthly|
    ensures GrowthPath(initial, monthly)[k] == initial * GrowthFactor(monthly[..k + 1])
  {
    CumulativeGrowthIsProduct(monthly, k);
  }

  /** The value at the end of a path: `growth[-1]`. */
  function EndValue(monthly: seq<real>): (v: real)
    requires |monthly| > 0
    ensures v == INITIAL_INVESTMENT * GrowthFactor(monthly)
  {
    GrowthAtMonth(INITIAL_INVESTMENT, monthly, |monthly| - 1);
    assert monthly[..|monthly|] == monthly;
    GrowthPath(INITIAL_INVESTMENT, monthly)[|monthly| - 1]
  }

  /** A path of zero returns ends where it started. */
  lemma FlatPathKeepsInvestment(monthly: seq<real>)
    requires |monthly| > 0
    requires forall i :: 0 <= i < |monthly| ==> monthly[i] == 0.0
    ensures EndValue(monthly) == INITIAL_INVESTMENT
  {
    GrowthFactorOfZeros(monthly);
  }

  /** The simulation loop: one end value per path, in order. `samples[i]` are
      the monthly returns drawn for path `i`. */
  method SimulateEndValues(samples: seq<seq<real>>) returns (simulatedEndValues: seq<real>)
    requires |samples| == N_SIMULATIONS
    requires forall i :: 0 <= i < |samples| ==> |samples[i]| == N_MONTHS
    ensures |simulatedEndValues| == N_SIMULATIONS
    ensures forall i :: 0 <= i < N_SIMULATIONS ==>
      simulatedEndValues[i] == INITIAL_INVESTMENT * GrowthFactor(samples[i])
  {
    simulatedEndValues := [];
    for i := 0 to N_SIMULATIONS
      invariant |simulatedEndValues| == i
      invariant forall j :: 0 <= j < i ==> simulatedEndValues[j] == INITIAL_INVESTMENT * GrowthFactor(samples[j])
    {
      var monthly := samples[i];
      var growth := GrowthPath(INITIAL_INVESTMENT, monthly);
      GrowthAtMonth(INITIAL_INVESTMENT, monthly, |monthly| - 1);
      assert monthly[..|monthly|] == monthly;
      simulatedEndValues := simulatedEndValues + [growth[|growth| - 1]];
    }
  }

  // ---------------------------------------------------------------------
  // Fund flow

  /** The treasury corpus, in crore. */
  const CORPUS: int := 2000

  /** `int(x)`: truncation toward zero. */
  function Trunc(x: real): (n: int)
    ensures x >= 0.0 ==> 0.0 <= n as real <= x && x < n as real + 1.0
    ensures x < 0.0 ==> x <= n as real <= 0.0 && n as real - 1.0 < x
  {
    if x >= 0.0 then x.Floor else -((-x).Floor)
  }

  /** Slider positions the page allows: short term 0..2000 and medium term
      0..2000 - short term, both in steps of 100. */
  predicate SliderPositions(shortTerm: int, mediumTerm: int)
  {
    WithinCorpus(shortTerm, mediumTerm) && shortTerm % 100 == 0 && mediumTerm % 100 == 0
  }

  /** Neither bucket is negative and together they take at most the corpus. */
  predicate WithinCorpus(shortTerm: int, mediumTerm: int)
  {
    0 <= shortTerm <= CORPUS && 0 <= mediumTerm <= CORPUS - shortTerm
  }

  /** The three buckets and the two instruments of each. */
  datatype FundFlow = FundFlow(
    shortTerm: int, mediumTerm: int, longTerm: int,
    fd: int, cp: int,                // short term: fixed deposits, commercial paper
    gsec: int, corpBond: int,        // medium term: government securities, corporate bonds
    mf: int, etf: int)               // long term: mutual funds, exchange-traded funds

  /** What `int()` can make of a floating-point product whose exact value is
      `x`: the doubles nearest 0.57 and 0.6 lie just below those decimals, so
      the product can fall just short of a whole number and truncate to one
      less than the exact truncation. That can only happen when there is a
      whole unit to lose. */
  predicate FloatTruncation(x: real, n: int)
  {
    n == Trunc(x) || (x >= 1.0 && n == Trunc(x) - 1)
  }

  /** The first instrument of each bucket is what `int()` makes of its share
      (57%, 60%, 60%) of the bucket. */
  predicate PageTruncations(shortTerm: int, mediumTerm: int, fd: int, gsec: int, mf: int)
  {
    && FloatTruncation(shortTerm as real * 0.57, fd)
    && FloatTruncation(mediumTerm as real * 0.6, gsec)
    && FloatTruncation((CORPUS - shortTerm - mediumTerm) as real * 0.6, mf)
  }

  /** The long-term bucket takes the rest of the corpus; each bucket gives its
      first instrument the truncated share `fd`, `gsec` or `mf` and the
      remainder to its second. */
  function AllocateFunds(shortTerm: int, mediumTerm: int, fd: int, gsec: int, mf: int): (f: FundFlow)
    ensures f.shortTerm + f.mediumTerm + f.longTerm == CORPUS
    ensures f.fd + f.cp == f.shortTerm && f.gsec + f.corpBond == f.mediumTerm && f.mf + f.etf == f.longTerm
  {
    var longTerm := CORPUS - shortTerm - mediumTerm;
    FundFlow(shortTerm, mediumTerm, longTerm, fd, shortTerm - fd, gsec, mediumTerm - gsec, mf, longTerm - mf)
  }

  /** The buckets make up the corpus, and the long-term bucket is never
      negative because the medium slider stops at 2000 - short term. */
  lemma BucketsMakeUpCorpus(shortTerm: int, mediumTerm: int, fd: int, gsec: int, mf: int)
    requires SliderPositions(shortTerm, mediumTerm)
    ensures var f := AllocateFunds(shortTerm, mediumTerm, fd, gsec, mf);
      f.longTerm >= 0 && f.shortTerm + f.mediumTerm + f.longTerm == CORPUS
  {
  }

  /** Truncating a share of at most one of a non-negative amount, exactly or
      one unit short, stays between zero and the amount. */
  lemma ShareWithin(amount: int, share: real, n: int)
    requires amount >= 0 && 0.0 <= share <= 1.0
    requires FloatTruncation(amount as real * share, n)
    ensures 0 <= n <= amount
  {
    assert amount as real * share <= amount as real * 1.0;
  }

  /** Every bucket and instrument amount is non-negative, and each first
      instrument takes at most its bucket. */
  lemma AmountsNonNegative(shortTerm: int, mediumTerm: int, fd: int, gsec: int, mf: int)
    requires WithinCorpus(shortTerm, mediumTerm)
    requires PageTruncations(shortTerm, mediumTerm, fd, gsec, mf)
    ensures var f := AllocateFunds(shortTerm, mediumTerm, fd, gsec, mf);
      && f.shortTerm >= 0 && f.mediumTerm >= 0 && f.longTerm >= 0
      && 0 <= f.fd <= f.shortTerm && f.cp >= 0
      && 0 <= f.gsec <= f.mediumTerm && f.corpBond >= 0
      && 0 <= f.mf <= f.longTerm && f.etf >= 0
  {
    ShareWithin(shortTerm, 0.57, fd);
    ShareWithin(mediumTerm, 0.6, gsec);
    ShareWithin(CORPUS - shortTerm - mediumTerm, 0.6, mf);
  }

  // ---------------------------------------------------------------------
  // Sankey links

  /** Node numbers: 0 the treasury, 1-3 the buckets, 4-9 the instruments. */
  const SOURCE: seq<nat> := [0, 0, 0, 1, 1, 2, 2, 3, 3]
  const TARGET: seq<nat> := [1, 2, 3, 4, 5, 6, 7, 8, 9]

  /** The amount carried by each link, in link order. */
  function LinkValues(f: FundFlow): (values: seq<int>)
    ensures |values| == |SOURCE| == |TARGET|
  {
    [f.shortTerm, f.mediumTerm, f.longTerm, f.fd, f.cp, f.gsec, f.corpBond, f.mf, f.etf]
  }

  /** Every link flows forward, and no node has two incoming links: the
      diagram is a tree rooted at the treasury. */
  lemma LinksFormTree()
    ensures |SOURCE| == |TARGET| == 9
    ensures forall i :: 0 <= i < 9 ==> SOURCE[i] < TARGET[i]
    ensures forall i, j :: 0 <= i < j < 9 ==> TARGET[i] != TARGET[j]
  {
  }

  /** Sum of the values of the links whose end (`ends[i]`) is `node`. */
  function SumAt(values: seq<int>, ends: seq<nat>, node: nat): int
    requires |values| == |ends|
  {
    if |values| == 0 then 0
    else SumAt(values[..|values| - 1], ends[..|ends| - 1], node)
         + (if ends[|ends| - 1] == node then values[|values| - 1] else 0)
  }

  /** What flows into and out of a node. */
  function Inflow(f: FundFlow, node: nat): int
  {
    SumAt(LinkValues(f), TARGET, node)
  }

  function Outflow(f: FundFlow, node: nat): int
  {
    SumAt(LinkValues(f), SOURCE, node)
  }

  /** The value link `i` contributes to the sum at `node`. */
  function At(values: seq<int>, ends: seq<nat>, node: nat, i: nat): int
    requires i < |values| == |ends|
  {
    if ends[i] == node then values[i] else 0
  }

  /** Extending the links by one adds that link's contribution. */
  lemma SumAtPrefix(values: seq<int>, ends: seq<nat>, node: nat, n: nat)
    requires n < |values| == |ends|
    ensures SumAt(values[..n + 1], ends[..n + 1], node) == SumAt(values[..n], ends[..n], node) + At(values, ends, node, n)
  {
    assert values[..n + 1][..n] == values[..n];
    assert ends[..n + 1][..n] == ends[..n];
  }

  /** The sum at a node over nine links, link by link. */
  lemma SumAtNine(values: seq<int>, ends: seq<nat>, node: nat)
    requires |values| == |ends| == 9
    ensures SumAt(values, ends, node)
         == At(values, ends, node, 0) + At(values, ends, node, 1) + At(values, ends, node, 2)
          + At(values, ends, node, 3) + At(values, ends, node, 4) + At(values, ends, node, 5)
          + At(values, ends, node, 6) + At(values, ends, node, 7) + At(values, ends, node, 8)
  {
    assert values[..0] == [] && ends[..0] == [];
    SumAtPrefix(values, ends, node, 0);
    SumAtPrefix(values, ends, node, 1);
    SumAtPrefix(values, ends, node, 2);
    SumAtPrefix(values, ends, node, 3);
    SumAtPrefix(values, ends, node, 4);
    SumAtPrefix(values, ends, node, 5);
    SumAtPrefix(values, ends, node, 6);
    SumAtPrefix(values, ends, node, 7);
    SumAtPrefix(values, ends, node, 8);
    assert values[..9] == values && ends[..9] == ends;
  }

  /** The flows through the treasury and the buckets, written out. */
  lemma FlowSums(f: FundFlow)
    ensures Outflow(f, 0) == f.shortTerm + f.mediumTerm + f.longTerm
    ensures Inflow(f, 1) == f.shortTerm && Outflow(f, 1) == f.fd + f.cp
    ensures Inflow(f, 2) == f.mediumTerm && Outflow(f, 2) == f.gsec + f.corpBond
    ensures Inflow(f, 3) == f.longTerm && Outflow(f, 3) == f.mf + f.etf
  {
    var v := LinkValues(f);
    SumAtNine(v, SOURCE, 0);
    SumAtNine(v, SOURCE, 1);
    SumAtNine(v, SOURCE, 2);
    SumAtNine(v, SOURCE, 3);
    SumAtNine(v, TARGET, 1);
    SumAtNine(v, TARGET, 2);
    SumAtNine(v, TARGET, 3);
  }

  /** Every bucket passes on exactly what it receives, the treasury sends out
      the whole corpus, and so the six instruments hold 2000 Cr between them. */
  lemma FlowIsConserved(shortTerm: int, mediumTerm: int, fd: int, gsec: int, mf: int)
    requires SliderPositions(shortTerm, mediumTerm)
    ensures var f := AllocateFunds(shortTerm, mediumTerm, fd, gsec, mf);
      && Outflow(f, 0) == CORPUS
      && (forall node :: 1 <= node <= 3 ==> Inflow(f, node) == Outflow(f, node))
      && f.fd + f.cp + f.gsec + f.corpBond + f.mf + f.etf == CORPUS
  {
    var f := AllocateFunds(shortTerm, mediumTerm, fd, gsec, mf);
    FlowSums(f);
    BucketsMakeUpCorpus(shortTerm, mediumTerm, fd, gsec, mf);
  }
}
