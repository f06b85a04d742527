/**
 The balance score the search minimises: the sample standard deviation
 (denominator k - 1) of the per-label positive counts. The model keeps it
 exact: for k >= 2 counts c it records the integer k * sum(c^2) - (sum c)^2,
 which is k * (k - 1) times the sample variance, so comparing these integers
 for a fixed k orders frames exactly as comparing their standard deviations
 does (the square root is increasing). For k < 2 the sample deviation is
 not-a-number, modelled as `Undefined`, and nothing compares below or above it.

 Convention: the algebra lemmas below state their hypotheses as the left
 side of an implication in `ensures` rather than as `requires`, and take
 the intermediate real values as parameters. A caller then proves nothing
 to call them, and the nonlinear steps stay over plain real variables, not
 over sums of sequences.
 */
module Spread {

  function Sum(c: seq<int>): int {
    if |c| == 0 then 0 else c[0] + Sum(c[1..])
  }

  function SumSq(c: seq<int>): int {
    if |c| == 0 then 0 else c[0] * c[0] + SumSq(c[1..])
  }

  /** k * sum(c^2) - (sum c)^2 for the k counts in c. */
  function Numerator(c: seq<int>): int {
    |c| * SumSq(c) - Sum(c) * Sum(c)
  }

  /** Reference definitions over the reals: the textbook sample variance. */
  ghost function RealSum(c: seq<int>): real {
    if |c| == 0 then 0.0 else c[0] as real + RealSum(c[1..])
  }

  ghost function RealSumSq(c: seq<int>): real {
    if |c| == 0 then 0.0 else c[0] as real * c[0] as real + RealSumSq(c[1..])
  }

  ghost function Mean(c: seq<int>): real {
    if |c| == 0 then 0.0 else RealSum(c) / |c| as real
  }

  ghost function SquaredDeviations(c: seq<int>, m: real): real {
    if |c| == 0 then 0.0
    else (c[0] as real - m) * (c[0] as real - m) + SquaredDeviations(c[1..], m)
  }

  ghost function SampleVariance(c: seq<int>): real
    requires |c| >= 2
  {
    SquaredDeviations(c, Mean(c)) / (|c| - 1) as real
  }

  /** A score: the exact scaled variance, or not-a-number when k < 2. */
  datatype Score = Undefined | Defined(v: nat)

  /** The score of a count vector, as the source's `.sum().std()` orders it. */
  function ScoreOf(c: seq<int>): (s: Score)
    ensures s.Undefined? <==> |c| < 2
  {
    if |c| < 2 then Undefined
    else
      NumeratorNonNegative(c);
      Defined(Numerator(c))
  }

  /** A defined score is k * (k - 1) times the sample variance of the k counts. */
  lemma ScoreIsScaledVariance(c: seq<int>)
    ensures ScoreOf(c).Defined? ==>
      ScoreOf(c).v as real == SampleVariance(c) * (|c| as real * (|c| - 1) as real)
  {
    if |c| >= 2 {
      VarianceIdentity(c);
    }
  }

  /**
   Python's `<` on two standard deviations: false whenever either side is
   not-a-number, and false on equal values.
   */
  predicate Lower(a: Score, b: Score) {
    a.Defined? && b.Defined? && a.v < b.v
  }

  lemma {:induction false} SquaredDeviationsNonNegative(c: seq<int>, m: real)
    ensures SquaredDeviations(c, m) >= 0.0
    decreases |c|
  {
    if |c| > 0 {
      SquaredDeviationsNonNegative(c[1..], m);
      var d := c[0] as real - m;
      assert d * d >= 0.0;
    }
  }

  /** The first value split off each of the real-valued sums. */
  lemma SumsCons(c: seq<int>, m: real)
    requires |c| > 0
    ensures SquaredDeviations(c, m) == (c[0] as real - m) * (c[0] as real - m) + SquaredDeviations(c[1..], m)
    ensures RealSumSq(c) == c[0] as real * c[0] as real + RealSumSq(c[1..])
    ensures RealSum(c) == c[0] as real + RealSum(c[1..])
    ensures |c| as real == 1.0 + |c[1..]| as real
  {
  }

  lemma {:induction false} ExpandSquaredDeviations(c: seq<int>, m: real)
    ensures SquaredDeviations(c, m) == RealSumSq(c) - 2.0 * m * RealSum(c) + |c| as real * m * m
    decreases |c|
  {
    if |c| > 0 {
      ExpandSquaredDeviations(c[1..], m);
      ExpandCons(c, m);
    }
  }

  /** The expansion carries over from the tail of `c` to `c`. */
  lemma ExpandCons(c: seq<int>, m: real)
    ensures |c| > 0
         && SquaredDeviations(c[1..], m) == RealSumSq(c[1..]) - 2.0 * m * RealSum(c[1..]) + |c[1..]| as real * m * m
         ==> SquaredDeviations(c, m) == RealSumSq(c) - 2.0 * m * RealSum(c) + |c| as real * m * m
  {
    if |c| > 0 {
      var rest := c[1..];
      SumsCons(c, m);
      ExpandOneMore(c[0] as real, m, RealSumSq(rest), RealSum(rest), |rest| as real,
                    SquaredDeviations(rest, m),
                    SquaredDeviations(c, m), RealSumSq(c), RealSum(c), |c| as real);
    }
  }

  /** The expansion of the squared deviations, extended by one more value `x`. */
  lemma ExpandOneMore(x: real, m: real, q: real, s: real, n: real, dev: real,
                      dev': real, q': real, s': real, n': real)
    ensures dev == q - 2.0 * m * s + n * m * m
         && dev' == (x - m) * (x - m) + dev
         && q' == x * x + q && s' == x + s && n' == 1.0 + n
         ==> dev' == q' - 2.0 * m * s' + n' * m * m
  {
    if s' == x + s && n' == 1.0 + n {
      assert (x - m) * (x - m) == x * x - 2.0 * m * x + m * m;
      assert 2.0 * m * s' == 2.0 * m * x + 2.0 * m * s;
      assert n' * m * m == m * m + n * m * m;
    }
  }

  /** n * (q - 2ms + n m^2) = nq - s^2 when m is the mean s / n. */
  lemma ScaledDeviationAlgebra(n: real, s: real, q: real, m: real, dev: real)
    ensures m * n == s && dev == q - 2.0 * m * s + n * m * m ==> n * dev == n * q - s * s
  {
    if m * n == s && dev == q - 2.0 * m * s + n * m * m {
      assert n * (2.0 * m * s) == 2.0 * (m * n) * s;
      assert n * (n * m * m) == (m * n) * (m * n);
    }
  }

  /** k times the squared deviations around any `m` with m * k = sum(c). */
  lemma ScaledDeviationsAround(c: seq<int>, m: real)
    ensures m * |c| as real == RealSum(c) ==>
      |c| as real * SquaredDeviations(c, m) == |c| as real * RealSumSq(c) - RealSum(c) * RealSum(c)
  {
    ExpandSquaredDeviations(c, m);
    ScaledDeviationAlgebra(|c| as real, RealSum(c), RealSumSq(c), m, SquaredDeviations(c, m));
  }

  lemma MeanTimesCount(c: seq<int>)
    ensures Mean(c) * |c| as real == RealSum(c)
  {
  }

  /** The sums over the reals are the integer sums. */
  lemma {:induction false} RealSums(c: seq<int>)
    ensures RealSum(c) == Sum(c) as real
    ensures RealSumSq(c) == SumSq(c) as real
    decreases |c|
  {
    if |c| > 0 {
      RealSums(c[1..]);
      CastProduct(c[0], c[0]);
    }
  }

  lemma CastProduct(a: int, b: int)
    ensures (a * b) as real == a as real * b as real
  {
  }

  /** The integer numerator, read over the reals. */
  lemma NumeratorAsReal(c: seq<int>)
    ensures Numerator(c) as real == |c| as real * RealSumSq(c) - RealSum(c) * RealSum(c)
  {
    RealSums(c);
    CastProduct(|c|, SumSq(c));
    CastProduct(Sum(c), Sum(c));
  }

  /** k times the squared deviations from the mean is the integer numerator. */
  lemma ScaledDeviations(c: seq<int>)
    ensures |c| as real * SquaredDeviations(c, Mean(c)) == Numerator(c) as real
  {
    MeanTimesCount(c);
    ScaledDeviationsAround(c, Mean(c));
    NumeratorAsReal(c);
  }

  /** dev / d scaled by n * d is n * dev. */
  lemma ScaleQuotient(n: real, d: real, dev: real, v: real)
    ensures d > 0.0 && v == dev / d ==> v * (n * d) == n * dev
  {
    if d > 0.0 && v == dev / d {
      assert v * d == dev;
      assert v * (n * d) == n * (v * d);
    }
  }

  /** k (k - 1) times the sample variance is k times the squared deviations. */
  lemma ScaledVariance(c: seq<int>)
    requires |c| >= 2
    ensures SampleVariance(c) * (|c| as real * (|c| - 1) as real) == |c| as real * SquaredDeviations(c, Mean(c))
  {
    ScaleQuotient(|c| as real, (|c| - 1) as real, SquaredDeviations(c, Mean(c)), SampleVariance(c));
  }

  /** The integer numerator is k * (k - 1) times the sample variance. */
  lemma VarianceIdentity(c: seq<int>)
    requires |c| >= 2
    ensures SampleVariance(c) * (|c| as real * (|c| - 1) as real) == Numerator(c) as real
  {
    ScaledDeviations(c);
    ScaledVariance(c);
  }

  /** The integer numerator is never negative: it is k times a sum of squares. */
  lemma NumeratorNonNegative(c: seq<int>)
    ensures Numerator(c) >= 0
  {
    ScaledDeviations(c);
    SquaredDeviationsNonNegative(c, Mean(c));
    NonNegativeProduct(|c| as real, SquaredDeviations(c, Mean(c)));
  }

  lemma NonNegativeProduct(x: real, y: real)
    ensures x >= 0.0 && y >= 0.0 ==> x * y >= 0.0
  {
  }

  lemma ScaleMonotone(x: real, y: real, f: real)
    requires f > 0.0
    ensures x < y <==> x * f < y * f
  {
    if x < y {
      assert (y - x) * f > 0.0;
    } else {
      assert (x - y) * f >= 0.0;
    }
  }

  lemma LowerByScale(sa: Score, sb: Score, va: real, vb: real, f: real)
    requires f > 0.0 && sa.Defined? && sb.Defined?
    requires sa.v as real == va * f && sb.v as real == vb * f
    ensures Lower(sa, sb) <==> va < vb
  {
    ScaleMonotone(va, vb, f);
  }

  /**
   Comparing scores of two count vectors with the same number of labels is
   comparing their sample variances; for fewer than two labels nothing is
   ever lower.
   */
  lemma LowerIsLowerVariance(a: seq<int>, b: seq<int>)
    requires |a| == |b|
    ensures |a| < 2 ==> !Lower(ScoreOf(a), ScoreOf(b))
    ensures |a| >= 2 ==> (Lower(ScoreOf(a), ScoreOf(b)) <==> SampleVariance(a) < SampleVariance(b))
  {
    if |a| >= 2 {
      var f := |a| as real * (|a| - 1) as real;
      assert f > 0.0;
      ScoreIsScaledVariance(a);
      ScoreIsScaledVariance(b);
      LowerByScale(ScoreOf(a), ScoreOf(b), SampleVariance(a), SampleVariance(b), f);
    }
  }
}
