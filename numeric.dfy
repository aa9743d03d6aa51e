/** Exact-arithmetic building blocks shared by the simulators: a fixed
    three-bucket vector (short, medium and long term, in that order), its
    total, a dot product, compounding of per-period rates and whole powers. */
module Numeric {

  /** One value per bucket, in the order short term, medium term, long term. */
  type Triple = s: seq<real> | |s| == 3 witness [0.0, 0.0, 0.0]

  /** Sum of the three buckets. */
  function Total(t: Triple): real
  {
    t[0] + t[1] + t[2]
  }

  /** Dot product of one row of per-bucket rates with a weight vector. */
  function Dot(row: Triple, weights: Triple): real
  {
    row[0] * weights[0] + row[1] * weights[1] + row[2] * weights[2]
  }

  /** An amount after one period in which it earned the return `r`. */
  function Grown(amount: real, r: real): real
  {
    amount * (1.0 + r)
  }

  /** The product of (1 + r) over a sequence of rates, left to right. */
  function GrowthFactor(rates: seq<real>): real
  {
    if |rates| == 0 then 1.0
    else GrowthFactor(rates[..|rates| - 1]) * (1.0 + rates[|rates| - 1])
  }

  /** Compounding two consecutive stretches multiplies their growth factors. */
  lemma {:induction false} GrowthFactorAppend(a: seq<real>, b: seq<real>)
    ensures GrowthFactor(a + b) == GrowthFactor(a) * GrowthFactor(b)
  {
    if |b| == 0 {
      assert a + b == a;
    } else {
      var n := |b| - 1;
      assert (a + b)[..|a + b| - 1] == a + b[..n];
      GrowthFactorAppend(a, b[..n]);
    }
  }

  /** A stretch of zero rates neither grows nor shrinks the value. */
  lemma {:induction false} GrowthFactorOfZeros(rates: seq<real>)
    requires forall i :: 0 <= i < |rates| ==> rates[i] == 0.0
    ensures GrowthFactor(rates) == 1.0
  {
    if |rates| > 0 {
      GrowthFactorOfZeros(rates[..|rates| - 1]);
    }
  }

  /** The product of two non-negative reals is non-negative. */
  lemma ProductNonNegative(a: real, b: real)
    requires a >= 0.0 && b >= 0.0
    ensures a * b >= 0.0
  {
  }

  /** Whole power x^n, as Python's `x ** n` for an integer exponent. */
  function Pow(x: real, n: nat): real
  {
    if n == 0 then 1.0 else x * Pow(x, n - 1)
  }

  /** A base of at least one never yields a power below one. */
  lemma {:induction false} PowAtLeastOne(x: real, n: nat)
    requires x >= 1.0
    ensures Pow(x, n) >= 1.0
  {
    if n > 0 {
      PowAtLeastOne(x, n - 1);
      assert x * Pow(x, n - 1) >= Pow(x, n - 1);
    }
  }

  /** A positive base gives a positive power. */
  lemma {:induction false} PowPositive(x: real, n: nat)
    requires x > 0.0
    ensures Pow(x, n) > 0.0
  {
    if n > 0 {
      PowPositive(x, n - 1);
    }
  }

  /** Every power of one is one. */
  lemma {:induction false} PowOfOne(n: nat)
    ensures Pow(1.0, n) == 1.0
  {
    if n > 0 {
      PowOfOne(n - 1);
    }
  }

  /** Where block `i` starts when blocks of `width` entries are laid end to
      end: `i * width`, built up by addition. */
  function Offset(i: nat, width: nat): nat
  {
    if i == 0 then 0 else Offset(i - 1, width) + width
  }

  lemma {:induction false} OffsetIsProduct(i: nat, width: nat)
    ensures Offset(i, width) == i * width
  {
    if i > 0 {
      OffsetIsProduct(i - 1, width);
      assert (i - 1) * width + width == i * width;
    }
  }
}
