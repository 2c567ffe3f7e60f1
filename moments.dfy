/**
 * Finite distributions over generation depth: a sequence `w` whose entry `g`
 * is the weight of depth `g`. Every sum is over a precomputed sequence, so the
 * recursive definitions stay linear; the products of depths and weights live
 * in the entries and are handled one index at a time.
 */
module Moments {

  /** Sum of the first `k` entries of `s`. */
  function Sum(s: seq<real>, k: nat): real
    requires k <= |s|
  {
    if k == 0 then 0.0 else Sum(s, k - 1) + s[k - 1]
  }

  /** Every weight is non-negative. */
  ghost predicate NonNegative(w: seq<real>) {
    forall g :: 0 <= g < |w| ==> w[g] >= 0.0
  }

  /** Entry `g` is the depth `g` times its weight. */
  function DepthTerms(w: seq<real>): (r: seq<real>)
    ensures |r| == |w|
    ensures forall g :: 0 <= g < |w| ==> r[g] == g as real * w[g]
  {
    seq(|w|, g requires 0 <= g < |w| => g as real * w[g])
  }

  /** Entry `g` is the squared depth `g * g` times its weight. */
  function SquaredDepthTerms(w: seq<real>): (r: seq<real>)
    ensures |r| == |w|
    ensures forall g :: 0 <= g < |w| ==> r[g] == g as real * g as real * w[g]
  {
    seq(|w|, g requires 0 <= g < |w| => g as real * g as real * w[g])
  }

  /** Entry `g` is the weight of depth `g` times its squared distance from `c`. */
  function DeviationTerms(w: seq<real>, c: real): (r: seq<real>)
    ensures |r| == |w|
    ensures forall g :: 0 <= g < |w| ==> r[g] == w[g] * ((g as real - c) * (g as real - c))
  {
    seq(|w|, g requires 0 <= g < |w| => w[g] * ((g as real - c) * (g as real - c)))
  }

  /** The first moment of depth: the expected depth when `w` sums to one. */
  function Mean(w: seq<real>): real {
    Sum(DepthTerms(w), |w|)
  }

  /** The second moment of depth. */
  function MeanSquare(w: seq<real>): real {
    Sum(SquaredDepthTerms(w), |w|)
  }

  /** The reference definition of spread: the weighted squared distance of the depths from `c`. */
  function Spread(w: seq<real>, c: real): real {
    Sum(DeviationTerms(w, c), |w|)
  }

  /** The raw-moment form of the variance: second moment minus squared first moment. */
  function Variance(w: seq<real>): real {
    MeanSquare(w) - Mean(w) * Mean(w)
  }

  // ---------------------------------------------------------------------------
  // Real arithmetic for one index

  lemma NonNegProduct(a: real, b: real)
    requires a >= 0.0 && b >= 0.0
    ensures a * b >= 0.0
  {}

  lemma CombinationStep(e: real, a: real, b: real, d: real, alpha: real, beta: real, gamma: real,
                        se: real, sa: real, sb: real, sd: real)
    requires se == alpha * sa + beta * sb + gamma * sd
    requires e == alpha * a + beta * b + gamma * d
    ensures se + e == alpha * (sa + a) + beta * (sb + b) + gamma * (sd + d)
  {}

  lemma DeviationExpands(dev: real, sq: real, m: real, w: real, g: real, c: real)
    requires dev == w * ((g - c) * (g - c)) && sq == g * g * w && m == g * w
    ensures dev == 1.0 * sq + (-2.0 * c) * m + (c * c) * w
  {}

  lemma CentralStep(s: real, p: real, t: real, sp: real)
    requires sp == 1.0 * s + (-2.0 * p) * p + (p * p) * t && t == 1.0
    ensures sp == s - p * p
  {}

  // ---------------------------------------------------------------------------
  // Sums

  /** A sum of non-negative entries is non-negative. */
  lemma {:induction false} SumNonNegative(s: seq<real>, k: nat)
    requires k <= |s| && NonNegative(s)
    ensures Sum(s, k) >= 0.0
  {
    if k > 0 {
      SumNonNegative(s, k - 1);
    }
  }

  /** Entry by entry, `e` is `alpha * a + beta * b + gamma * d` over the first `k` indices. */
  ghost predicate Combines(e: seq<real>, a: seq<real>, b: seq<real>, d: seq<real>,
                           alpha: real, beta: real, gamma: real, k: nat)
    requires k <= |e| == |a| == |b| == |d|
  {
    forall i :: 0 <= i < k ==> e[i] == alpha * a[i] + beta * b[i] + gamma * d[i]
  }

  /** Sums are linear: a sequence combined entrywise from three others sums to the same combination. */
  lemma {:induction false} SumCombination(e: seq<real>, a: seq<real>, b: seq<real>, d: seq<real>,
                                          alpha: real, beta: real, gamma: real, k: nat)
    requires k <= |e| == |a| == |b| == |d|
    requires Combines(e, a, b, d, alpha, beta, gamma, k)
    ensures Sum(e, k) == alpha * Sum(a, k) + beta * Sum(b, k) + gamma * Sum(d, k)
  {
    if k > 0 {
      assert Combines(e, a, b, d, alpha, beta, gamma, k - 1);
      SumCombination(e, a, b, d, alpha, beta, gamma, k - 1);
      CombinationStep(e[k - 1], a[k - 1], b[k - 1], d[k - 1], alpha, beta, gamma,
                      Sum(e, k - 1), Sum(a, k - 1), Sum(b, k - 1), Sum(d, k - 1));
    }
  }

  lemma ScaleStep(sm: real, sw: real, a: real, b: real, n: real)
    requires sm == n * sw && a == n * b
    ensures sm + a == n * (sw + b)
  {}

  lemma UnitScale(t: real, m: real, n: real)
    requires n > 0.0 && m == n * t && m == n
    ensures t == 1.0
  {}

  /** Over the first `k` indices, every entry of `m` is `n` times the entry of `w`. */
  ghost predicate Scaled(m: seq<real>, w: seq<real>, n: real, k: nat)
    requires k <= |m| == |w|
  {
    forall i :: 0 <= i < k ==> m[i] == n * w[i]
  }

  /** Scaling every entry by `n` scales the sum by `n`. */
  lemma {:induction false} SumScaled(m: seq<real>, w: seq<real>, n: real, k: nat)
    requires k <= |m| == |w| && Scaled(m, w, n, k)
    ensures Sum(m, k) == n * Sum(w, k)
  {
    if k > 0 {
      assert Scaled(m, w, n, k - 1);
      SumScaled(m, w, n, k - 1);
      ScaleStep(Sum(m, k - 1), Sum(w, k - 1), m[k - 1], w[k - 1], n);
    }
  }

  /** Weights whose `n`-fold multiples sum to `n` sum to one. */
  lemma SumNormalised(m: seq<real>, w: seq<real>, n: real)
    requires n > 0.0 && |m| == |w|
    requires Scaled(m, w, n, |m|)
    requires Sum(m, |m|) == n
    ensures Sum(w, |w|) == 1.0
  {
    SumScaled(m, w, n, |m|);
    UnitScale(Sum(w, |w|), Sum(m, |m|), n);
  }

  // ---------------------------------------------------------------------------
  // Moments

  /** A spread is never negative. */
  lemma SpreadNonNegative(w: seq<real>, c: real)
    requires NonNegative(w)
    ensures Spread(w, c) >= 0.0
  {
    var dev := DeviationTerms(w, c);
    forall g | 0 <= g < |w|
      ensures dev[g] >= 0.0
    {
      NonNegProduct(w[g], (g as real - c) * (g as real - c));
    }
    SumNonNegative(dev, |w|);
  }

  /** At depth `g`, the deviation term is the squared-depth term, minus 2c times the depth term, plus c^2 times the weight. */
  lemma DeviationAt(w: seq<real>, c: real, g: nat)
    requires g < |w|
    ensures DeviationTerms(w, c)[g] == 1.0 * SquaredDepthTerms(w)[g] + (-2.0 * c) * DepthTerms(w)[g] + (c * c) * w[g]
  {
    DeviationExpands(DeviationTerms(w, c)[g], SquaredDepthTerms(w)[g], DepthTerms(w)[g], w[g], g as real, c);
  }

  /** Entrywise, the deviation terms combine the squared-depth terms, the depth terms and the weights. */
  lemma DeviationEntries(w: seq<real>, c: real)
    ensures Combines(DeviationTerms(w, c), SquaredDepthTerms(w), DepthTerms(w), w, 1.0, -2.0 * c, c * c, |w|)
  {
    forall g | 0 <= g < |w|
      ensures DeviationTerms(w, c)[g] == 1.0 * SquaredDepthTerms(w)[g] + (-2.0 * c) * DepthTerms(w)[g] + (c * c) * w[g]
    {
      DeviationAt(w, c, g);
    }
  }

  /** A spread around `c` expands into the three raw moments. */
  lemma SpreadExpands(w: seq<real>, c: real)
    ensures Spread(w, c) == 1.0 * MeanSquare(w) + (-2.0 * c) * Mean(w) + (c * c) * Sum(w, |w|)
  {
    DeviationEntries(w, c);
    SumCombination(DeviationTerms(w, c), SquaredDepthTerms(w), DepthTerms(w), w, 1.0, -2.0 * c, c * c, |w|);
  }

  /** Around the mean of a distribution, the spread is the second moment minus the squared mean. */
  lemma SpreadAtMean(w: seq<real>)
    requires Sum(w, |w|) == 1.0
    ensures Spread(w, Mean(w)) == MeanSquare(w) - Mean(w) * Mean(w)
  {
    SpreadExpands(w, Mean(w));
    CentralStep(MeanSquare(w), Mean(w), Sum(w, |w|), Spread(w, Mean(w)));
  }

  /**
   * For weights summing to one, the raw-moment form of the variance is the
   * spread around the mean.
   */
  lemma VarianceIsSpread(w: seq<real>)
    requires Sum(w, |w|) == 1.0
    ensures Variance(w) == Spread(w, Mean(w))
  {
    SpreadAtMean(w);
  }

  /** The variance of a distribution is never negative. */
  lemma VarianceNonNegative(w: seq<real>)
    requires NonNegative(w) && Sum(w, |w|) == 1.0
    ensures Variance(w) >= 0.0
  {
    VarianceIsSpread(w);
    SpreadNonNegative(w, Mean(w));
  }

  // ---------------------------------------------------------------------------
  // Depths listed one per lineage

  /** Sum of a list of depths. */
  function DepthTotal(ds: seq<nat>): nat {
    if ds == [] then 0 else DepthTotal(ds[..|ds| - 1]) + ds[|ds| - 1]
  }

  /** Sum of the squared distances of the depths from `c`. */
  function SquaredDistances(ds: seq<nat>, c: real): (r: real)
    ensures r >= 0.0
  {
    if ds == [] then 0.0
    else
      var x := ds[|ds| - 1] as real - c;
      SquaredDistances(ds[..|ds| - 1], c) + x * x
  }

  /**
   * The population variance of a list of depths, one per lineage: the mean
   * squared distance of the depths from their mean.
   */
  function PopulationVariance(ds: seq<nat>): (v: real)
    requires ds != []
    ensures v >= 0.0
  {
    SquaredDistances(ds, DepthTotal(ds) as real / |ds| as real) / |ds| as real
  }
}
