/**
 * The moment aggregator of geneo/describe.py (`variance3V`) and the variance
 * entry point `meangendepthVar`. The per-level founder and semi-founder
 * counts of the walk are turned into a distribution over generation depth:
 * level `g` carries the share (F_g + DF_g / 2) / (N * 2^g), where N is the
 * number of probands. The result is the second moment of that distribution
 * minus the square of its first moment. Python floats are modelled by exact
 * reals.
 */
module Variance {
  import opened Pedigrees
  import opened Generations
  import opened Moments
  import opened Relabeling

  // ---------------------------------------------------------------------------
  // Level weights

  /** 2^g: the number of ancestor slots a proband has at generation g. */
  function Pow2(g: nat): (r: nat)
    ensures r >= 1
  {
    if g == 0 then 1 else 2 * Pow2(g - 1)
  }

  /** `x / 2^g`, computed as `g` halvings so that it stays linear in `x`. */
  function Halve(x: real, g: nat): real
    decreases g
  {
    if g == 0 then x else Halve(x / 2.0, g - 1)
  }

  /** Halving distributes over addition. */
  lemma {:induction false} HalveAdds(x: real, y: real, g: nat)
    ensures Halve(x + y, g) == Halve(x, g) + Halve(y, g)
    decreases g
  {
    if g > 0 {
      HalveAdds(x / 2.0, y / 2.0, g - 1);
      assert (x + y) / 2.0 == x / 2.0 + y / 2.0;
    }
  }

  /** Halving keeps the sign. */
  lemma {:induction false} HalveNonNegative(x: real, g: nat)
    requires x >= 0.0
    ensures Halve(x, g) >= 0.0
    ensures x == 0.0 ==> Halve(x, g) == 0.0
    decreases g
  {
    if g > 0 {
      HalveNonNegative(x / 2.0, g - 1);
    }
  }

  /** `g` halvings divide by 2^g. */
  lemma {:induction false} HalveDivides(x: real, g: nat)
    ensures Halve(x, g) == x / Pow2(g) as real
    decreases g
  {
    if g > 0 {
      HalveDivides(x / 2.0, g - 1);
      DivideTwice(x, Pow2(g - 1) as real, Pow2(g) as real);
    }
  }

  /**
   * The lineage mass of level `g`: each founder closes a whole slot worth
   * 2^-g, each semi-founder half of one.
   */
  function LevelMass(f: nat, d: nat, g: nat): (m: real)
    ensures m >= 0.0
    ensures m == (f as real + d as real / 2.0) / Pow2(g) as real
  {
    HalveNonNegative(f as real + d as real / 2.0, g);
    HalveDivides(f as real + d as real / 2.0, g);
    Halve(f as real + d as real / 2.0, g)
  }

  /** The lineage masses of all levels of a count list. */
  function Masses(vctF: seq<nat>, vctDF: seq<nat>): (r: seq<real>)
    requires |vctF| == |vctDF|
    ensures |r| == |vctF|
    ensures forall g :: 0 <= g < |r| ==> r[g] == LevelMass(vctF[g], vctDF[g], g)
  {
    seq(|vctF|, g requires 0 <= g < |vctF| => LevelMass(vctF[g], vctDF[g], g))
  }

  /**
   * The share of level `g` among the `n * 2^g` proband-ancestor slots of that
   * level: founders count fully, semi-founders half.
   */
  function Share(f: nat, d: nat, n: nat, g: nat): (w: real)
    requires n > 0
    ensures w >= 0.0
  {
    (f as real + d as real / 2.0) / (n * Pow2(g)) as real
  }

  /** The distribution over generation depth that `variance3V` summarises. */
  function Shares(vctF: seq<nat>, vctDF: seq<nat>, n: nat): (r: seq<real>)
    requires n > 0 && |vctF| == |vctDF|
    ensures |r| == |vctF|
    ensures forall g :: 0 <= g < |r| ==> r[g] == Share(vctF[g], vctDF[g], n, g)
    ensures NonNegative(r)
  {
    seq(|vctF|, g requires 0 <= g < |vctF| => Share(vctF[g], vctDF[g], n, g))
  }

  /** What `variance3V` returns for counts `vctF`, `vctDF` and `n` probands. */
  function DepthVariance(vctF: seq<nat>, vctDF: seq<nat>, n: nat): real
    requires |vctF| == |vctDF|
  {
    if n == 0 then 0.0 else Variance(Shares(vctF, vctDF, n))
  }

  // ---------------------------------------------------------------------------
  // Real arithmetic for one level

  lemma CastProduct(a: int, b: int)
    ensures (a * b) as real == a as real * b as real
  {}

  lemma DivideTwice(x: real, p: real, p': real)
    requires p > 0.0 && p' == 2.0 * p
    ensures (x / 2.0) / p == x / p'
  {}

  lemma ShareIsScaledMass(w: real, m: real, x: real, n: real, p: real, np: real)
    requires n > 0.0 && p > 0.0 && np == n * p && m == x / p && w == x / np
    ensures m == n * w
  {}

  lemma TermsStep(g: real, f: real, d: real, weight: real)
    requires weight > 0.0
    ensures (g * f) / weight + (g * d) * 0.5 / weight == g * ((f + d / 2.0) / weight)
  {}

  // ---------------------------------------------------------------------------
  // The mass identity of the walk

  /** The lineage mass of a level is its share times the number of probands. */
  lemma MassIsScaledShare(f: nat, d: nat, n: nat, g: nat)
    requires n > 0
    ensures LevelMass(f, d, g) == n as real * Share(f, d, n, g)
  {
    var x := f as real + d as real / 2.0;
    HalveDivides(x, g);
    CastProduct(n, Pow2(g));
    ShareIsScaledMass(Share(f, d, n, g), LevelMass(f, d, g), x, n as real, Pow2(g) as real, (n * Pow2(g)) as real);
  }

  /** The lineage masses are the shares times the number of probands. */
  lemma MassesScaleShares(vctF: seq<nat>, vctDF: seq<nat>, n: nat)
    requires n > 0 && |vctF| == |vctDF|
    ensures Scaled(Masses(vctF, vctDF), Shares(vctF, vctDF, n), n as real, |vctF|)
  {
    var w, m := Shares(vctF, vctDF, n), Masses(vctF, vctDF);
    forall g | 0 <= g < |vctF|
      ensures m[g] == n as real * w[g]
    {
      MassIsScaledShare(vctF[g], vctDF[g], n, g);
    }
  }

  /**
   * One level of the telescoping sum: closing the level's founders and
   * semi-founders and passing the rest on as parents keeps the total.
   */
  lemma MassStep(vctF: seq<nat>, vctDF: seq<nat>, k: nat, s: nat, s': nat)
    requires 0 < k <= |vctF| == |vctDF|
    requires 2 * s == s' + 2 * vctF[k - 1] + vctDF[k - 1]
    ensures Sum(Masses(vctF, vctDF), k) + Halve(s' as real, k)
         == Sum(Masses(vctF, vctDF), k - 1) + Halve(s as real, k - 1)
  {
    var closed := vctF[k - 1] as real + vctDF[k - 1] as real / 2.0;
    assert closed + s' as real / 2.0 == s as real;
    HalveAdds(closed, s' as real / 2.0, k - 1);
  }

  /**
   * `sizes[g]` is the size of level `g`: each level holds two entries per
   * entry of the level before with both parents and one per semi-founder.
   */
  ghost predicate SizesFollow(vctF: seq<nat>, vctDF: seq<nat>, sizes: seq<nat>)
    requires |vctF| == |vctDF| && |sizes| == |vctF| + 1
  {
    forall g :: 0 <= g < |vctF| ==> 2 * sizes[g] == sizes[g + 1] + 2 * vctF[g] + vctDF[g]
  }

  /**
   * Telescoping: after `k` levels, the mass of the closed lineages plus the
   * open slots of level `k`, each worth 2^-k, is the size of the first level.
   */
  lemma {:induction false} Telescope(vctF: seq<nat>, vctDF: seq<nat>, sizes: seq<nat>, k: nat)
    requires |vctF| == |vctDF| && |sizes| == |vctF| + 1 && k <= |vctF|
    requires SizesFollow(vctF, vctDF, sizes)
    ensures Sum(Masses(vctF, vctDF), k) + Halve(sizes[k] as real, k) == sizes[0] as real
  {
    if k > 0 {
      Telescope(vctF, vctDF, sizes, k - 1);
      MassStep(vctF, vctDF, k, sizes[k - 1], sizes[k]);
    }
  }

  /** The sizes of the levels of the walk, one more than the count lists hold. */
  ghost function WalkSizes(ped: Pedigree, rank: int -> nat, pro: seq<int>): (sizes: seq<nat>)
    requires WellFormed(ped, rank) && AllIn(ped, pro)
    ensures |sizes| == |Counts(ped, rank, pro).0| + 1
    ensures forall g :: 0 <= g < |sizes| ==> sizes[g] == |Level(ped, pro, g)|
  {
    seq(|Counts(ped, rank, pro).0| + 1, g requires 0 <= g => |Level(ped, pro, g)|)
  }

  /** Level `g + 1` of the walk has two entries per entry of level `g` with both parents and one per semi-founder. */
  lemma WalkSizeStep(ped: Pedigree, rank: int -> nat, pro: seq<int>, g: nat)
    requires WellFormed(ped, rank) && AllIn(ped, pro)
    requires g < |Counts(ped, rank, pro).0|
    ensures var c, sizes := Counts(ped, rank, pro), WalkSizes(ped, rank, pro);
      2 * sizes[g] == sizes[g + 1] + 2 * c.0[g] + c.1[g]
  {
    LevelSizes(ped, rank, pro, g);
  }

  /** The level sizes of the walk follow its counts: each level feeds the next. */
  lemma WalkSizesFollow(ped: Pedigree, rank: int -> nat, pro: seq<int>)
    requires WellFormed(ped, rank) && AllIn(ped, pro)
    ensures var c := Counts(ped, rank, pro);
      SizesFollow(c.0, c.1, WalkSizes(ped, rank, pro))
  {
    var c, sizes := Counts(ped, rank, pro), WalkSizes(ped, rank, pro);
    forall g | 0 <= g < |c.0|
      ensures 2 * sizes[g] == sizes[g + 1] + 2 * c.0[g] + c.1[g]
    {
      WalkSizeStep(ped, rank, pro, g);
    }
  }

  /** The walk starts from the probands and stops at an empty level. */
  lemma WalkSizesEnds(ped: Pedigree, rank: int -> nat, pro: seq<int>)
    requires WellFormed(ped, rank) && AllIn(ped, pro)
    ensures var sizes := WalkSizes(ped, rank, pro);
      sizes[0] == |pro| && sizes[|sizes| - 1] == 0
  {
    CountsByLevel(ped, rank, pro);
  }

  /**
   * The mass identity: over all levels of the walk, the founder and half
   * semi-founder counts, each divided by 2^g, add up to the number of probands.
   */
  lemma MassIdentity(ped: Pedigree, rank: int -> nat, pro: seq<int>)
    requires WellFormed(ped, rank) && AllIn(ped, pro)
    ensures var c := Counts(ped, rank, pro);
      Sum(Masses(c.0, c.1), |c.0|) == |pro| as real
  {
    var c, sizes := Counts(ped, rank, pro), WalkSizes(ped, rank, pro);
    WalkSizesFollow(ped, rank, pro);
    WalkSizesEnds(ped, rank, pro);
    Telescope(c.0, c.1, sizes, |c.0|);
    HalveNonNegative(0.0, |c.0|);
  }

  /** Shares whose masses add up to the number of probands sum to one. */
  lemma SharesTotal(vctF: seq<nat>, vctDF: seq<nat>, n: nat)
    requires n > 0 && |vctF| == |vctDF|
    requires Sum(Masses(vctF, vctDF), |vctF|) == n as real
    ensures Sum(Shares(vctF, vctDF, n), |vctF|) == 1.0
  {
    MassesScaleShares(vctF, vctDF, n);
    SumNormalised(Masses(vctF, vctDF), Shares(vctF, vctDF, n), n as real);
  }

  /** For a non-empty proband list the level shares form a distribution: they sum to one. */
  lemma SharesSumToOne(ped: Pedigree, rank: int -> nat, pro: seq<int>)
    requires WellFormed(ped, rank) && AllIn(ped, pro) && pro != []
    ensures var c := Counts(ped, rank, pro);
      Sum(Shares(c.0, c.1, |pro|), |c.0|) == 1.0
  {
    var c := Counts(ped, rank, pro);
    MassIdentity(ped, rank, pro);
    SharesTotal(c.0, c.1, |pro|);
  }

  /** The generational-depth variance of a pedigree seen from a proband list. */
  ghost function GenerationalVariance(ped: Pedigree, rank: int -> nat, pro: seq<int>): real
    requires WellFormed(ped, rank) && AllIn(ped, pro)
  {
    var c := Counts(ped, rank, pro);
    DepthVariance(c.0, c.1, |pro|)
  }

  /**
   * For a non-empty proband list, the variance is the spread of the depth
   * distribution around its mean.
   */
  lemma GenerationalVarianceIsSpread(ped: Pedigree, rank: int -> nat, pro: seq<int>)
    requires WellFormed(ped, rank) && AllIn(ped, pro) && pro != []
    ensures var w := Shares(Counts(ped, rank, pro).0, Counts(ped, rank, pro).1, |pro|);
      GenerationalVariance(ped, rank, pro) == Spread(w, Mean(w))
  {
    var c := Counts(ped, rank, pro);
    SharesSumToOne(ped, rank, pro);
    VarianceIsSpread(Shares(c.0, c.1, |pro|));
  }

  /** The variance is zero for no probands and never negative. */
  lemma GenerationalVarianceNonNegative(ped: Pedigree, rank: int -> nat, pro: seq<int>)
    requires WellFormed(ped, rank) && AllIn(ped, pro)
    ensures GenerationalVariance(ped, rank, pro) >= 0.0
    ensures pro == [] ==> GenerationalVariance(ped, rank, pro) == 0.0
  {
    if pro != [] {
      var c := Counts(ped, rank, pro);
      GenerationalVarianceIsSpread(ped, rank, pro);
      SpreadNonNegative(Shares(c.0, c.1, |pro|), Mean(Shares(c.0, c.1, |pro|)));
    }
  }

  /** Over two levels, both moments are the share of the deeper level. */
  lemma TwoLevelMoments(w: seq<real>)
    requires |w| == 2
    ensures Mean(w) == w[1] && MeanSquare(w) == w[1]
  {
    assert Sum(DepthTerms(w), 1) == 0.0;
    assert Sum(SquaredDepthTerms(w), 1) == 0.0;
  }

  /**
   * A proband whose only recorded parent is a founder sits half at depth 0
   * and half at depth 1: its depth variance is 1/4.
   */
  lemma FatherOnlyVariance(rank: int -> nat)
    requires rank(2) < rank(1)
    ensures WellFormed(FatherOnly, rank) && AllIn(FatherOnly, [1])
    ensures GenerationalVariance(FatherOnly, rank, [1]) == 0.25
  {
    FatherOnlyExample(rank);
    var w := Shares([0, 1], [1, 0], 1);
    assert w[1] == 0.5;
    TwoLevelMoments(w);
  }

  /** Renaming the individuals leaves the depth variance unchanged. */
  lemma GenerationalVarianceRelabel(ped: Pedigree, rank: int -> nat, ped2: Pedigree, rank2: int -> nat,
                                    s: int -> int, pro: seq<int>)
    requires WellFormed(ped, rank) && WellFormed(ped2, rank2) && Relabels(ped, ped2, s) && AllIn(ped, pro)
    ensures AllIn(ped2, Renamed(s, pro))
    ensures GenerationalVariance(ped2, rank2, Renamed(s, pro)) == GenerationalVariance(ped, rank, pro)
  {
    CountsRelabel(ped, rank, ped2, rank2, s, pro);
  }

  /** The depth variance depends only on the ancestors the walk from the probands reaches. */
  lemma GenerationalVarianceReachableOnly(ped: Pedigree, rank: int -> nat, ped2: Pedigree, rank2: int -> nat,
                                          pro: seq<int>)
    requires WellFormed(ped, rank) && WellFormed(ped2, rank2) && AllIn(ped, pro)
    requires forall g: nat :: AgreeOn(ped, ped2, Level(ped, pro, g))
    ensures AllIn(ped2, pro)
    ensures GenerationalVariance(ped2, rank2, pro) == GenerationalVariance(ped, rank, pro)
  {
    CountsReachableOnly(ped, rank, ped2, rank2, pro);
  }

  lemma ThreeLevelMoments(w: seq<real>)
    requires |w| == 3
    ensures Mean(w) == w[1] + 2.0 * w[2] && MeanSquare(w) == w[1] + 4.0 * w[2]
  {
    var m, q := DepthTerms(w), SquaredDepthTerms(w);
    assert Sum(m, 1) == 0.0 && Sum(m, 2) == w[1];
    assert Sum(q, 1) == 0.0 && Sum(q, 2) == w[1];
    assert m[2] == 2.0 * w[2] && q[2] == 4.0 * w[2];
  }

  /** Weight 1/2 at depth 1 and 1/2 at depth 2: the variance is 1/4. */
  lemma HalfAtOneHalfAtTwo(w: seq<real>)
    requires |w| == 3 && w[1] == 0.5 && w[2] == 0.5
    ensures Variance(w) == 0.25
  {
    ThreeLevelMoments(w);
  }

  /** Two lineages, of depths 2 and 1: their population variance is 1/4. */
  lemma SplitDepthsVariance()
    ensures PopulationVariance([2, 1]) == 0.25
  {
    assert [2, 1][..1] == [2] && [2][..0] == [];
    assert DepthTotal([2, 1]) == 3;
    assert SquaredDistances([2, 1], 1.5) == 0.5;
  }

  /**
   * Probands 1 and 8 with disjoint ancestries: every lineage of 1 closes at
   * depth 2, every lineage of 8 at depth 1. The depth variance is that of the
   * two depths [2, 1], 1/4.
   */
  lemma TwoLineagesVariance(rank: int -> nat)
    requires rank(2) < rank(1) && rank(3) < rank(1) && rank(9) < rank(8) && rank(10) < rank(8)
    requires rank(4) < rank(2) && rank(5) < rank(2) && rank(6) < rank(3) && rank(7) < rank(3)
    ensures WellFormed(TwoLineages, rank) && AllIn(TwoLineages, [1, 8])
    ensures GenerationalVariance(TwoLineages, rank, [1, 8]) == 0.25
    ensures GenerationalVariance(TwoLineages, rank, [1, 8]) == PopulationVariance([2, 1])
  {
    TwoLineagesExample(rank);
    var w := Shares([0, 2, 4], [0, 0, 0], 2);
    assert w[1] == Share(2, 0, 2, 1) == 0.5;
    assert w[2] == Share(4, 0, 2, 2) == 0.5;
    HalfAtOneHalfAtTwo(w);
    SplitDepthsVariance();
  }

  /** A founder listed twice is two lineages closed at depth 0: the variance is 0. */
  lemma RepeatedProbandVariance(rank: int -> nat)
    ensures WellFormed(LoneFounder, rank) && AllIn(LoneFounder, [1, 1])
    ensures GenerationalVariance(LoneFounder, rank, [1, 1]) == 0.0
  {
    RepeatedProbandExample(rank);
    var w := Shares([2], [0], 2);
    assert Sum(DepthTerms(w), 1) == 0.0;
    assert Sum(SquaredDepthTerms(w), 1) == 0.0;
  }

  /** Each row of the 'IND' table names its proband and holds a variance that is not negative. */
  lemma IndividualRowsNonNegative(pro: seq<int>, lineages: seq<Pedigree>, rank: int -> nat)
    requires |lineages| == |pro|
    requires forall i :: 0 <= i < |pro| ==> WellFormed(lineages[i], rank) && AllIn(lineages[i], [pro[i]])
    ensures forall i :: 0 <= i < |pro| ==>
      IndividualRows(pro, lineages, rank)[i].0 == pro[i] && IndividualRows(pro, lineages, rank)[i].1 >= 0.0
  {
    forall i | 0 <= i < |pro|
      ensures IndividualRows(pro, lineages, rank)[i].0 == pro[i] && IndividualRows(pro, lineages, rank)[i].1 >= 0.0
    {
      GenerationalVarianceNonNegative(lineages[i], rank, [pro[i]]);
    }
  }

  // ---------------------------------------------------------------------------
  // The aggregator itself

  /**
   * The founder term and the half-weighted semi-founder term that `variance3V`
   * adds separately, both scaled by `m` (the depth or its square) and divided
   * by the integer weight, make up `m` times the level's share.
   */
  lemma SourceTerms(m: nat, f: nat, d: nat, weight: nat)
    requires weight > 0
    ensures (m * f) as real / weight as real + (m * d) as real * 0.5 / weight as real
         == m as real * ((f as real + d as real / 2.0) / weight as real)
  {
    CastProduct(m, f);
    CastProduct(m, d);
    TermsStep(m as real, f as real, d as real, weight as real);
  }

  /** One pass of the accumulation loop extends the first moment by one level. */
  lemma FirstMomentStep(vctF: seq<nat>, vctDF: seq<nat>, n: nat, genNo: nat, weight: nat)
    requires n > 0 && genNo < |vctF| == |vctDF| && weight == n * Pow2(genNo)
    ensures Sum(DepthTerms(Shares(vctF, vctDF, n)), genNo + 1)
         == Sum(DepthTerms(Shares(vctF, vctDF, n)), genNo)
            + (genNo * vctF[genNo]) as real / weight as real + (genNo * vctDF[genNo]) as real * 0.5 / weight as real
  {
    SourceTerms(genNo, vctF[genNo], vctDF[genNo], weight);
  }

  /** One pass of the accumulation loop extends the second moment by one level. */
  lemma SecondMomentStep(vctF: seq<nat>, vctDF: seq<nat>, n: nat, genNo: nat, weight: nat)
    requires n > 0 && genNo < |vctF| == |vctDF| && weight == n * Pow2(genNo)
    ensures Sum(SquaredDepthTerms(Shares(vctF, vctDF, n)), genNo + 1)
         == Sum(SquaredDepthTerms(Shares(vctF, vctDF, n)), genNo)
            + (genNo * genNo * vctF[genNo]) as real / weight as real
            + (genNo * genNo * vctDF[genNo]) as real * 0.5 / weight as real
  {
    SourceTerms(genNo * genNo, vctF[genNo], vctDF[genNo], weight);
    CastProduct(genNo, genNo);
  }

  /**
   * The accumulation loop of `variance3V`: level by level, the founder term
   * and the half-weighted semi-founder term are added to the first moment `p`
   * and, scaled by the squared depth, to the second moment `sumSq`. A level
   * whose weight is 0 would be skipped; with `n > 0` no weight is 0.
   */
  method AccumulateMoments(vctF: seq<nat>, vctDF: seq<nat>, n: nat) returns (p: real, sumSq: real)
    requires n > 0 && |vctF| == |vctDF|
    ensures p == Mean(Shares(vctF, vctDF, n))
    ensures sumSq == MeanSquare(Shares(vctF, vctDF, n))
  {
    ghost var w := Shares(vctF, vctDF, n);
    p, sumSq := 0.0, 0.0;
    for genNo := 0 to |vctF|
      invariant p == Sum(DepthTerms(w), genNo)
      invariant sumSq == Sum(SquaredDepthTerms(w), genNo)
    {
      var weight := n * Pow2(genNo);
      if weight == 0 {
        continue;
      }
      FirstMomentStep(vctF, vctDF, n, genNo, weight);
      SecondMomentStep(vctF, vctDF, n, genNo, weight);
      var termF := (genNo * vctF[genNo]) as real / weight as real;
      p := p + termF;
      sumSq := sumSq + (genNo * genNo * vctF[genNo]) as real / weight as real;
      var termDF := (genNo * vctDF[genNo]) as real * 0.5 / weight as real;
      p := p + termDF;
      sumSq := sumSq + (genNo * genNo * vctDF[genNo]) as real * 0.5 / weight as real;
    }
  }

  /** Second moment minus squared first moment of the shares is the depth variance. */
  lemma MomentsGiveDepthVariance(vctF: seq<nat>, vctDF: seq<nat>, n: nat, p: real, sumSq: real)
    requires n > 0 && |vctF| == |vctDF|
    requires p == Mean(Shares(vctF, vctDF, n)) && sumSq == MeanSquare(Shares(vctF, vctDF, n))
    ensures sumSq - p * p == DepthVariance(vctF, vctDF, n)
  {}

  /** The variance of a walk is the depth variance of the counts it produces. */
  lemma VarianceOfCounts(ped: Pedigree, rank: int -> nat, pro: seq<int>, vctF: seq<nat>, vctDF: seq<nat>)
    requires WellFormed(ped, rank) && AllIn(ped, pro)
    requires (vctF, vctDF) == Counts(ped, rank, pro)
    ensures |vctF| == |vctDF|
    ensures GenerationalVariance(ped, rank, pro) == DepthVariance(vctF, vctDF, |pro|)
  {}

  /**
   * `variance3V` with an explicit proband list: 0 for no probands, otherwise
   * the weighted second moment of generation depth minus the squared first
   * moment, which is the variance of the depth distribution.
   */
  method Variance3V(ped: Pedigree, pro: seq<int>, ghost rank: int -> nat) returns (variance: real)
    requires WellFormed(ped, rank) && AllIn(ped, pro)
    ensures variance == GenerationalVariance(ped, rank, pro)
    ensures variance >= 0.0
    ensures pro == [] ==> variance == 0.0
  {
    GenerationalVarianceNonNegative(ped, rank, pro);
    var n := |pro|;
    if n == 0 {
      return 0.0;
    }
    var vctF, vctDF := GetGenerationalCounts(ped, pro, rank);
    var p, sumSq := AccumulateMoments(vctF, vctDF, n);
    variance := sumSq - p * p;
    MomentsGiveDepthVariance(vctF, vctDF, n, p, sumSq);
    VarianceOfCounts(ped, rank, pro, vctF, vctDF);
  }

  // ---------------------------------------------------------------------------
  // meangendepthVar

  /** What `meangendepthVar` returns for each value of its `type` option. */
  datatype DepthVarReport =
    | Population(variance: real)             // 'MEAN': one variance for all probands
    | PerIndividual(rows: seq<(int, real)>)  // 'IND': one row per proband
    | NoReport                               // any other type: the function returns None

  /** The table of the 'IND' branch: each proband next to the variance of its own lineage. */
  ghost function IndividualRows(pro: seq<int>, lineages: seq<Pedigree>, rank: int -> nat): (rows: seq<(int, real)>)
    requires |lineages| == |pro|
    requires forall i :: 0 <= i < |pro| ==> WellFormed(lineages[i], rank) && AllIn(lineages[i], [pro[i]])
    ensures |rows| == |pro|
  {
    seq(|pro|, i requires 0 <= i < |pro| => (pro[i], GenerationalVariance(lineages[i], rank, [pro[i]])))
  }

  /** The table grows by one row per proband, in proband order. */
  lemma IndividualRowsStep(pro: seq<int>, lineages: seq<Pedigree>, rank: int -> nat, i: nat, rows: seq<(int, real)>, v: real)
    requires |lineages| == |pro| && i < |pro|
    requires forall i :: 0 <= i < |pro| ==> WellFormed(lineages[i], rank) && AllIn(lineages[i], [pro[i]])
    requires rows == IndividualRows(pro, lineages, rank)[..i]
    requires v == GenerationalVariance(lineages[i], rank, [pro[i]])
    ensures rows + [(pro[i], v)] == IndividualRows(pro, lineages, rank)[..i + 1]
  {
    PrefixExtends(IndividualRows(pro, lineages, rank), i);
  }

  /** A prefix one longer is the prefix extended by the next element. */
  lemma PrefixExtends<T>(s: seq<T>, i: nat)
    requires i < |s|
    ensures s[..i + 1] == s[..i] + [s[i]]
  {}

  /** The whole sequence is its longest prefix. */
  lemma PrefixWhole<T>(s: seq<T>)
    ensures s[..|s|] == s
  {}

  /**
   * The 'IND' branch of `meangendepthVar`: `variance3V` once per proband, on
   * that proband's lineage. `lineages[i]` is the pedigree restricted to the
   * ancestry of `pro[i]`, as the caller obtained it, with `pro[i]` as its only
   * proband.
   */
  method PerIndividualVariances(pro: seq<int>, lineages: seq<Pedigree>, ghost rank: int -> nat)
    returns (rows: seq<(int, real)>)
    requires |lineages| == |pro|
    requires forall i :: 0 <= i < |pro| ==> WellFormed(lineages[i], rank) && AllIn(lineages[i], [pro[i]])
    ensures rows == IndividualRows(pro, lineages, rank)
  {
    rows := [];
    for i := 0 to |pro|
      invariant rows == IndividualRows(pro, lineages, rank)[..i]
    {
      var v := Variance3V(lineages[i], [pro[i]], rank);
      IndividualRowsStep(pro, lineages, rank, i, rows, v);
      rows := rows + [(pro[i], v)];
    }
    PrefixWhole(IndividualRows(pro, lineages, rank));
  }

  /**
   * `meangendepthVar`. With 'MEAN' it is `variance3V` on the whole proband
   * list; with 'IND' one row per proband; with any other type there is no
   * result.
   */
  method MeanGenDepthVar(ped: Pedigree, pro: seq<int>, lineages: seq<Pedigree>, ghost rank: int -> nat, kind: string := "MEAN")
    returns (report: DepthVarReport)
    requires kind == "MEAN" ==> WellFormed(ped, rank) && AllIn(ped, pro)
    requires kind == "IND" ==> |lineages| == |pro|
    requires kind == "IND" ==> forall i :: 0 <= i < |pro| ==> WellFormed(lineages[i], rank) && AllIn(lineages[i], [pro[i]])
    ensures kind == "MEAN" ==> report == Population(GenerationalVariance(ped, rank, pro))
    ensures kind == "IND" ==> report == PerIndividual(IndividualRows(pro, lineages, rank))
    ensures kind != "MEAN" && kind != "IND" ==> report == NoReport
  {
    if kind == "MEAN" {
      var variance := Variance3V(ped, pro, rank);
      report := Population(variance);
    } else if kind == "IND" {
      var rows := PerIndividualVariances(pro, lineages, rank);
      report := PerIndividual(rows);
    } else {
      report := NoReport;
    }
  }
}
