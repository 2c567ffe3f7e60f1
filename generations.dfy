/**
 * The generation-count walker of geneo/describe.py (`get_generational_counts`):
 * a level-synchronous walk up the parent links from a list of probands that
 * records, per generation level, how many visited entries are founders and
 * how many are semi-founders. Entries are never deduplicated: an ancestor
 * reached along two paths is visited, counted and expanded twice.
 */
module Generations {
  import opened Pedigrees

  // ---------------------------------------------------------------------------
  // One level of the walk, specified over the prefix the inner loop has seen

  /** Founder entries of a level, counted occurrence by occurrence. */
  function FounderCount(ped: Pedigree, gen: seq<int>): (r: nat)
    requires AllIn(ped, gen)
    ensures r <= |gen|
  {
    if gen == [] then 0
    else FounderCount(ped, gen[..|gen| - 1]) + (if IsFounder(ped[gen[|gen| - 1]]) then 1 else 0)
  }

  /** Semi-founder entries of a level, counted occurrence by occurrence. */
  function SemiFounderCount(ped: Pedigree, gen: seq<int>): (r: nat)
    requires AllIn(ped, gen)
    ensures r <= |gen|
  {
    if gen == [] then 0
    else SemiFounderCount(ped, gen[..|gen| - 1]) + (if IsSemiFounder(ped[gen[|gen| - 1]]) then 1 else 0)
  }

  /** Entries of a level with both parents recorded: they count as neither. */
  function BothParentsCount(ped: Pedigree, gen: seq<int>): (r: nat)
    requires AllIn(ped, gen)
    ensures r <= |gen|
  {
    if gen == [] then 0
    else BothParentsCount(ped, gen[..|gen| - 1]) + (if HasBothParents(ped[gen[|gen| - 1]]) then 1 else 0)
  }

  /**
   * The next level: the recorded parents of every entry, in level order, each
   * entry's father before its mother, with every multiplicity kept.
   */
  function NextGen(ped: Pedigree, gen: seq<int>): (r: seq<int>)
    requires AllIn(ped, gen)
    ensures Absent !in r
    ensures Closed(ped) ==> AllIn(ped, r)
  {
    if gen == [] then []
    else
      var last := gen[|gen| - 1];
      var parents := ParentsOf(ped[last]);
      assert Closed(ped) ==> forall i :: 0 <= i < |parents| ==> parents[i] in ped by {
        if Closed(ped) {
          assert last in ped;
          forall i | 0 <= i < |parents| ensures parents[i] in ped {
            assert parents[i] in parents;
          }
        }
      }
      NextGen(ped, gen[..|gen| - 1]) + parents
  }

  /** Level `g` of the walk started from `gen`: `NextGen` applied `g` times. */
  ghost function Level(ped: Pedigree, gen: seq<int>, g: nat): (r: seq<int>)
    requires Closed(ped) && AllIn(ped, gen)
    ensures AllIn(ped, r)
    ensures Absent !in r || g == 0
    decreases g
  {
    if g == 0 then gen else Level(ped, NextGen(ped, gen), g - 1)
  }

  // ---------------------------------------------------------------------------
  // Termination measure: the largest rank present in a level

  /** The largest rank of an entry of `gen` (0 for an empty level). */
  ghost function MaxRank(rank: int -> nat, gen: seq<int>): (m: nat)
    ensures forall i :: 0 <= i < |gen| ==> rank(gen[i]) <= m
  {
    if gen == [] then 0
    else
      var m0 := MaxRank(rank, gen[..|gen| - 1]);
      var last := rank(gen[|gen| - 1]);
      if m0 < last then last else m0
  }

  /** `MaxRank` is the least upper bound of the ranks in the level. */
  lemma {:induction false} MaxRankLeast(rank: int -> nat, gen: seq<int>, b: nat)
    requires forall i :: 0 <= i < |gen| ==> rank(gen[i]) <= b
    ensures MaxRank(rank, gen) <= b
  {
    if gen != [] {
      MaxRankLeast(rank, gen[..|gen| - 1], b);
    }
  }

  /** Zero once the walk has no entries left; otherwise above every rank in the level. */
  ghost function Measure(rank: int -> nat, gen: seq<int>): nat {
    if gen == [] then 0 else MaxRank(rank, gen) + 1
  }

  /** Every parent in the next level ranks strictly below the highest entry of this one. */
  lemma {:induction false} NextGenRanksDrop(ped: Pedigree, rank: int -> nat, gen: seq<int>)
    requires RankedBy(ped, rank) && AllIn(ped, gen)
    ensures forall i :: 0 <= i < |NextGen(ped, gen)| ==> rank(NextGen(ped, gen)[i]) < MaxRank(rank, gen)
  {
    if gen != [] {
      var init, last := gen[..|gen| - 1], gen[|gen| - 1];
      NextGenRanksDrop(ped, rank, init);
      var head, parents := NextGen(ped, init), ParentsOf(ped[last]);
      assert NextGen(ped, gen) == head + parents;
      assert last in ped;
      forall i | 0 <= i < |head + parents| ensures rank((head + parents)[i]) < MaxRank(rank, gen) {
        if i < |head| {
          assert rank(head[i]) < MaxRank(rank, init);
        } else {
          assert rank(parents[i - |head|]) < rank(last);
        }
      }
    }
  }

  /** The measure strictly decreases from a non-empty level to the next. */
  lemma NextGenMeasureDrops(ped: Pedigree, rank: int -> nat, gen: seq<int>)
    requires RankedBy(ped, rank) && AllIn(ped, gen) && gen != []
    ensures Measure(rank, NextGen(ped, gen)) < Measure(rank, gen)
  {
    var next := NextGen(ped, gen);
    NextGenRanksDrop(ped, rank, gen);
    if next != [] {
      assert rank(next[0]) < MaxRank(rank, gen);
      MaxRankLeast(rank, next, MaxRank(rank, gen) - 1);
    }
  }

  // ---------------------------------------------------------------------------
  // The whole walk as a function: the two parallel count lists

  /**
   * The per-level founder and semi-founder counts of the walk started from
   * `gen`, one entry per non-empty level.
   */
  ghost function Counts(ped: Pedigree, rank: int -> nat, gen: seq<int>): (r: (seq<nat>, seq<nat>))
    requires WellFormed(ped, rank) && AllIn(ped, gen)
    ensures |r.0| == |r.1|
    ensures |r.0| == 0 <==> gen == []
    decreases Measure(rank, gen)
  {
    if gen == [] then ([], [])
    else
      NextGenMeasureDrops(ped, rank, gen);
      var rest := Counts(ped, rank, NextGen(ped, gen));
      ([FounderCount(ped, gen)] + rest.0, [SemiFounderCount(ped, gen)] + rest.1)
  }

  /** One level of the walk: its counts head the two lists, the rest come from the next level. */
  lemma CountsPeel(ped: Pedigree, rank: int -> nat, gen: seq<int>)
    requires WellFormed(ped, rank) && AllIn(ped, gen) && gen != []
    ensures AllIn(ped, NextGen(ped, gen))
    ensures Measure(rank, NextGen(ped, gen)) < Measure(rank, gen)
    ensures Counts(ped, rank, gen).0 == [FounderCount(ped, gen)] + Counts(ped, rank, NextGen(ped, gen)).0
    ensures Counts(ped, rank, gen).1 == [SemiFounderCount(ped, gen)] + Counts(ped, rank, NextGen(ped, gen)).1
  {
    NextGenMeasureDrops(ped, rank, gen);
  }

  /** Moving the head of a suffix to the end of the prefix. */
  lemma ShiftHead(a: seq<nat>, x: nat, b: seq<nat>)
    ensures a + ([x] + b) == (a + [x]) + b
  {}

  // ---------------------------------------------------------------------------
  // Properties of one level

  /**
   * Every entry of a level is exactly one of founder, semi-founder or
   * both-parents; the next level holds two entries per both-parents entry and
   * one per semi-founder.
   */
  lemma {:induction false} LevelPartition(ped: Pedigree, gen: seq<int>)
    requires AllIn(ped, gen)
    ensures FounderCount(ped, gen) + SemiFounderCount(ped, gen) + BothParentsCount(ped, gen) == |gen|
    ensures |NextGen(ped, gen)| == 2 * BothParentsCount(ped, gen) + SemiFounderCount(ped, gen)
  {
    if gen != [] {
      LevelPartition(ped, gen[..|gen| - 1]);
    }
  }

  /** A level yields no parents exactly when every entry of it is a founder. */
  lemma NoParentsIffAllFounders(ped: Pedigree, gen: seq<int>)
    requires AllIn(ped, gen)
    ensures NextGen(ped, gen) == [] <==> FounderCount(ped, gen) == |gen|
    ensures NextGen(ped, gen) == [] ==> SemiFounderCount(ped, gen) == 0
  {
    LevelPartition(ped, gen);
  }

  /**
   * A level in which every entry has both parents recorded holds neither
   * founders nor semi-founders, and the next level is twice as large.
   */
  lemma {:induction false} AllBothParents(ped: Pedigree, gen: seq<int>)
    requires AllIn(ped, gen)
    requires forall i :: 0 <= i < |gen| ==> HasBothParents(ped[gen[i]])
    ensures FounderCount(ped, gen) == 0 && SemiFounderCount(ped, gen) == 0
    ensures |NextGen(ped, gen)| == 2 * |gen|
  {
    if gen != [] {
      AllBothParents(ped, gen[..|gen| - 1]);
      LevelPartition(ped, gen);
    }
  }

  /**
   * No deduplication: a level split in two is classified and expanded as the
   * two parts separately, so every occurrence of an identifier counts.
   */
  lemma {:induction false} LevelSplits(ped: Pedigree, a: seq<int>, b: seq<int>)
    requires AllIn(ped, a) && AllIn(ped, b)
    ensures AllIn(ped, a + b)
    ensures FounderCount(ped, a + b) == FounderCount(ped, a) + FounderCount(ped, b)
    ensures SemiFounderCount(ped, a + b) == SemiFounderCount(ped, a) + SemiFounderCount(ped, b)
    ensures NextGen(ped, a + b) == NextGen(ped, a) + NextGen(ped, b)
  {
    if b == [] {
      assert a + b == a;
    } else {
      var b0, last := b[..|b| - 1], b[|b| - 1];
      assert b == b0 + [last];
      assert a + b == (a + b0) + [last];
      LevelSplits(ped, a, b0);
      AppendEntry(ped, a + b0, last);
      AppendEntry(ped, b0, last);
      assert NextGen(ped, a + b) == NextGen(ped, a) + NextGen(ped, b) by {
        ConcatAssoc(NextGen(ped, a), NextGen(ped, b0), ParentsOf(ped[last]));
      }
    }
  }

  /** A level extended by one entry: classified and expanded as that entry adds. */
  lemma AppendEntry(ped: Pedigree, s: seq<int>, x: int)
    requires AllIn(ped, s) && x in ped
    ensures AllIn(ped, s + [x])
    ensures FounderCount(ped, s + [x]) == FounderCount(ped, s) + (if IsFounder(ped[x]) then 1 else 0)
    ensures SemiFounderCount(ped, s + [x]) == SemiFounderCount(ped, s) + (if IsSemiFounder(ped[x]) then 1 else 0)
    ensures NextGen(ped, s + [x]) == NextGen(ped, s) + ParentsOf(ped[x])
  {
    assert (s + [x])[..|s|] == s;
  }

  /** Concatenation is associative. */
  lemma ConcatAssoc<T>(a: seq<T>, b: seq<T>, c: seq<T>)
    ensures a + b + c == a + (b + c)
  {}

  /** `Level` one step further is `NextGen` of the level before. */
  lemma {:induction false} LevelStep(ped: Pedigree, gen: seq<int>, g: nat)
    requires Closed(ped) && AllIn(ped, gen)
    ensures Level(ped, gen, g + 1) == NextGen(ped, Level(ped, gen, g))
    decreases g
  {
    if g > 0 {
      LevelStep(ped, NextGen(ped, gen), g - 1);
    }
  }

  // ---------------------------------------------------------------------------
  // Properties of the whole walk

  /**
   * Entry `g` of the two lists counts the founders and semi-founders of level
   * `g`; every listed level is non-empty and the first unlisted one is empty.
   */
  lemma {:induction false} CountsByLevel(ped: Pedigree, rank: int -> nat, gen: seq<int>)
    requires WellFormed(ped, rank) && AllIn(ped, gen)
    ensures var c := Counts(ped, rank, gen);
      && Level(ped, gen, |c.0|) == []
      && forall g :: 0 <= g < |c.0| ==>
           && Level(ped, gen, g) != []
           && c.0[g] == FounderCount(ped, Level(ped, gen, g))
           && c.1[g] == SemiFounderCount(ped, Level(ped, gen, g))
    decreases Measure(rank, gen)
  {
    if gen != [] {
      var next := NextGen(ped, gen);
      NextGenMeasureDrops(ped, rank, gen);
      CountsByLevel(ped, rank, next);
      var c, rest := Counts(ped, rank, gen), Counts(ped, rank, next);
      assert c.0 == [FounderCount(ped, gen)] + rest.0;
      assert c.1 == [SemiFounderCount(ped, gen)] + rest.1;
      assert Level(ped, gen, |c.0|) == Level(ped, next, |rest.0|);
      forall g | 0 <= g < |c.0|
        ensures Level(ped, gen, g) != []
        ensures c.0[g] == FounderCount(ped, Level(ped, gen, g))
        ensures c.1[g] == SemiFounderCount(ped, Level(ped, gen, g))
      {
        if g == 0 {
          assert Level(ped, gen, 0) == gen;
        } else {
          assert Level(ped, gen, g) == Level(ped, next, g - 1);
          assert c.0[g] == rest.0[g - 1] && c.1[g] == rest.1[g - 1];
        }
      }
    }
  }

  /**
   * At every listed level, founders and semi-founders together are at most the
   * level's size, and the following level has exactly two entries per entry
   * with both parents and one per semi-founder.
   */
  lemma LevelSizes(ped: Pedigree, rank: int -> nat, gen: seq<int>, g: nat)
    requires WellFormed(ped, rank) && AllIn(ped, gen)
    requires g < |Counts(ped, rank, gen).0|
    ensures var c, lvl := Counts(ped, rank, gen), Level(ped, gen, g);
      && c.0[g] + c.1[g] <= |lvl|
      && |Level(ped, gen, g + 1)| == 2 * (|lvl| - c.0[g] - c.1[g]) + c.1[g]
  {
    CountsByLevel(ped, rank, gen);
    LevelPartition(ped, Level(ped, gen, g));
    LevelStep(ped, gen, g);
  }

  /**
   * The walk stops only at a level that yields no parents: in the last level
   * every entry is a founder and none is a semi-founder.
   */
  lemma LastLevelAllFounders(ped: Pedigree, rank: int -> nat, gen: seq<int>)
    requires WellFormed(ped, rank) && AllIn(ped, gen) && gen != []
    ensures var c := Counts(ped, rank, gen);
      && c.0[|c.0| - 1] == |Level(ped, gen, |c.0| - 1)|
      && c.1[|c.1| - 1] == 0
  {
    var c := Counts(ped, rank, gen);
    var last := |c.0| - 1;
    CountsByLevel(ped, rank, gen);
    LevelStep(ped, gen, last);
    NoParentsIffAllFounders(ped, Level(ped, gen, last));
  }

  /** The inner loop's step: one more entry of the level classified and expanded. */
  lemma LevelPrefixStep(ped: Pedigree, gen: seq<int>, i: nat)
    requires AllIn(ped, gen) && i < |gen|
    ensures AllIn(ped, gen[..i]) && AllIn(ped, gen[..i + 1])
    ensures FounderCount(ped, gen[..i + 1])
         == FounderCount(ped, gen[..i]) + (if IsFounder(ped[gen[i]]) then 1 else 0)
    ensures SemiFounderCount(ped, gen[..i + 1])
         == SemiFounderCount(ped, gen[..i]) + (if IsSemiFounder(ped[gen[i]]) then 1 else 0)
    ensures NextGen(ped, gen[..i + 1]) == NextGen(ped, gen[..i]) + ParentsOf(ped[gen[i]])
  {
    assert gen[..i + 1][..i] == gen[..i];
  }

  /** A level of one individual: classified by its own parents, followed by them. */
  lemma SingletonLevel(ped: Pedigree, id: int)
    requires id in ped
    ensures AllIn(ped, [id])
    ensures FounderCount(ped, [id]) == (if IsFounder(ped[id]) then 1 else 0)
    ensures SemiFounderCount(ped, [id]) == (if IsSemiFounder(ped[id]) then 1 else 0)
    ensures NextGen(ped, [id]) == ParentsOf(ped[id])
  {
    LevelPrefixStep(ped, [id], 0);
    assert [id][..1] == [id] && [id][..0] == [];
  }

  // ---------------------------------------------------------------------------
  // The walker itself

  /**
   * One pass of the walk over a level: classifies every entry by its parents
   * and collects the recorded parents, father before mother, for the next
   * level.
   */
  method ScanLevel(ped: Pedigree, level: seq<int>) returns (founders: nat, semiFounders: nat, nextGen: seq<int>)
    requires AllIn(ped, level)
    ensures founders == FounderCount(ped, level)
    ensures semiFounders == SemiFounderCount(ped, level)
    ensures nextGen == NextGen(ped, level)
    ensures founders + semiFounders <= |level|
    ensures |nextGen| == 2 * (|level| - founders - semiFounders) + semiFounders
    ensures Absent !in nextGen
  {
    founders, semiFounders, nextGen := 0, 0, [];
    for i := 0 to |level|
      invariant founders == FounderCount(ped, level[..i])
      invariant semiFounders == SemiFounderCount(ped, level[..i])
      invariant nextGen == NextGen(ped, level[..i])
    {
      LevelPrefixStep(ped, level, i);
      var father, mother := ped[level[i]].father, ped[level[i]].mother;
      ghost var before := nextGen;
      if father == Absent && mother == Absent {
        founders := founders + 1;
      } else if (father == Absent) != (mother == Absent) {
        semiFounders := semiFounders + 1;
      }
      if father != Absent {
        nextGen := nextGen + [father];
      }
      if mother != Absent {
        nextGen := nextGen + [mother];
      }
      assert nextGen == before + ParentsOf(ped[level[i]]) by {
        var fs := if father != Absent then [father] else [];
        var ms := if mother != Absent then [mother] else [];
        assert nextGen == before + fs + ms;
        assert ParentsOf(ped[level[i]]) == fs + ms;
      }
    }
    assert level[..|level|] == level;
    LevelPartition(ped, level);
  }

  /**
   * `get_generational_counts`: walks up one level at a time, classifying and
   * expanding every entry of the current level, until a level is empty.
   * Neither the pedigree nor the proband list is changed: the current level is
   * only ever rebound to a new list.
   */
  method GetGenerationalCounts(ped: Pedigree, pro: seq<int>, ghost rank: int -> nat)
    returns (vctF: seq<nat>, vctDF: seq<nat>)
    requires WellFormed(ped, rank) && AllIn(ped, pro)
    ensures (vctF, vctDF) == Counts(ped, rank, pro)
    ensures |vctF| == |vctDF|
    ensures pro == [] ==> vctF == [] && vctDF == []
    ensures Level(ped, pro, |vctF|) == []
    ensures forall g :: 0 <= g < |vctF| ==>
      && Level(ped, pro, g) != []
      && vctF[g] == FounderCount(ped, Level(ped, pro, g))
      && vctDF[g] == SemiFounderCount(ped, Level(ped, pro, g))
  {
    var currentGen := pro;
    vctF, vctDF := [], [];
    while currentGen != []
      invariant AllIn(ped, currentGen)
      invariant vctF + Counts(ped, rank, currentGen).0 == Counts(ped, rank, pro).0
      invariant vctDF + Counts(ped, rank, currentGen).1 == Counts(ped, rank, pro).1
      decreases Measure(rank, currentGen)
    {
      var founders, semiFounders, nextGen := ScanLevel(ped, currentGen);
      CountsPeel(ped, rank, currentGen);
      ShiftHead(vctF, founders, Counts(ped, rank, nextGen).0);
      ShiftHead(vctDF, semiFounders, Counts(ped, rank, nextGen).1);
      vctF, vctDF := vctF + [founders], vctDF + [semiFounders];
      currentGen := nextGen;
    }
    assert vctF + [] == vctF && vctDF + [] == vctDF;
    CountsByLevel(ped, rank, pro);
  }

  // ---------------------------------------------------------------------------
  // Worked examples

  /** Proband 1 has only a father, 2, who is a founder. */
  const FatherOnly: Pedigree := map[1 := Parents(2, Absent), 2 := Parents(Absent, Absent)]

  /** The walk from [1] over `FatherOnly` counts founders [0, 1] and semi-founders [1, 0]. */
  lemma FatherOnlyExample(rank: int -> nat)
    requires rank(2) < rank(1)
    ensures WellFormed(FatherOnly, rank)
    ensures Counts(FatherOnly, rank, [1]) == ([0, 1], [1, 0])
  {
    var ped := FatherOnly;
    assert IsSemiFounder(ped[1]) && IsFounder(ped[2]);
    SingletonLevel(ped, 1);
    SingletonLevel(ped, 2);
    assert NextGen(ped, [1]) == [2];
    assert NextGen(ped, [2]) == [];
    var c2 := Counts(ped, rank, [2]);
    var c0 := Counts(ped, rank, []);
    assert c0.0 == [] && c0.1 == [];
    assert c2 == ([1] + c0.0, [0] + c0.1);
    assert c2.0 == [1] && c2.1 == [0];
    var c1 := Counts(ped, rank, [1]);
    assert c1 == ([0] + c2.0, [1] + c2.1);
    assert c1.0 == [0, 1] && c1.1 == [1, 0];
  }

  /** Individual 1 is a founder. */
  const LoneFounder: Pedigree := map[1 := Parents(Absent, Absent)]

  /** The same founder listed twice as a proband is counted twice: [2] and [0]. */
  lemma RepeatedProbandExample(rank: int -> nat)
    ensures WellFormed(LoneFounder, rank)
    ensures Counts(LoneFounder, rank, [1, 1]) == ([2], [0])
  {
    var ped := LoneFounder;
    assert IsFounder(ped[1]);
    SingletonLevel(ped, 1);
    LevelSplits(ped, [1], [1]);
    assert [1] + [1] == [1, 1];
    var c := Counts(ped, rank, [1, 1]);
    var c0 := Counts(ped, rank, []);
    assert c0.0 == [] && c0.1 == [];
    assert c == ([2] + c0.0, [0] + c0.1);
    assert c.0 == [2] && c.1 == [0];
  }

  /**
   * Probands 1 and 8 share no ancestor. Every lineage of 1 ends in founders
   * two levels up (4, 5, 6, 7), every lineage of 8 one level up (9, 10).
   */
  const TwoLineages: Pedigree := map[
    1 := Parents(2, 3), 2 := Parents(4, 5), 3 := Parents(6, 7), 8 := Parents(9, 10),
    4 := Parents(Absent, Absent), 5 := Parents(Absent, Absent), 6 := Parents(Absent, Absent),
    7 := Parents(Absent, Absent), 9 := Parents(Absent, Absent), 10 := Parents(Absent, Absent)]

  /** A level of two individuals: classified by their own parents, followed by them in order. */
  lemma PairLevel(ped: Pedigree, x: int, y: int)
    requires x in ped && y in ped
    ensures AllIn(ped, [x, y])
    ensures FounderCount(ped, [x, y])
         == (if IsFounder(ped[x]) then 1 else 0) + (if IsFounder(ped[y]) then 1 else 0)
    ensures SemiFounderCount(ped, [x, y])
         == (if IsSemiFounder(ped[x]) then 1 else 0) + (if IsSemiFounder(ped[y]) then 1 else 0)
    ensures NextGen(ped, [x, y]) == ParentsOf(ped[x]) + ParentsOf(ped[y])
  {
    SingletonLevel(ped, x);
    SingletonLevel(ped, y);
    LevelSplits(ped, [x], [y]);
    assert [x] + [y] == [x, y];
  }

  /** A level of four individuals is its two halves, one after the other. */
  lemma QuadLevel(ped: Pedigree, w: int, x: int, y: int, z: int)
    requires w in ped && x in ped && y in ped && z in ped
    ensures AllIn(ped, [w, x, y, z])
    ensures FounderCount(ped, [w, x, y, z]) == FounderCount(ped, [w, x]) + FounderCount(ped, [y, z])
    ensures SemiFounderCount(ped, [w, x, y, z])
         == SemiFounderCount(ped, [w, x]) + SemiFounderCount(ped, [y, z])
    ensures NextGen(ped, [w, x, y, z]) == NextGen(ped, [w, x]) + NextGen(ped, [y, z])
  {
    PairLevel(ped, w, x);
    PairLevel(ped, y, z);
    LevelSplits(ped, [w, x], [y, z]);
    assert [w, x] + [y, z] == [w, x, y, z];
  }

  lemma TwoLineagesWellFormed(rank: int -> nat)
    requires rank(2) < rank(1) && rank(3) < rank(1) && rank(9) < rank(8) && rank(10) < rank(8)
    requires rank(4) < rank(2) && rank(5) < rank(2) && rank(6) < rank(3) && rank(7) < rank(3)
    ensures WellFormed(TwoLineages, rank) && AllIn(TwoLineages, [1, 8])
  {
  }

  /** Level 0 of the walk from [1, 8]: both probands have both parents. */
  lemma TwoLineagesLevel0(ped: Pedigree)
    requires 1 in ped && ped[1] == Parents(2, 3) && 8 in ped && ped[8] == Parents(9, 10)
    ensures AllIn(ped, [1, 8])
    ensures FounderCount(ped, [1, 8]) == 0 && SemiFounderCount(ped, [1, 8]) == 0
    ensures NextGen(ped, [1, 8]) == [2, 3, 9, 10]
  {
    PairLevel(ped, 1, 8);
    assert ParentsOf(ped[1]) == [2, 3] && ParentsOf(ped[8]) == [9, 10];
    assert [2, 3] + [9, 10] == [2, 3, 9, 10];
  }

  /** Level 1: 2 and 3 have both parents, 9 and 10 are founders. */
  lemma TwoLineagesLevel1(ped: Pedigree)
    requires 2 in ped && ped[2] == Parents(4, 5) && 3 in ped && ped[3] == Parents(6, 7)
    requires 9 in ped && IsFounder(ped[9]) && 10 in ped && IsFounder(ped[10])
    ensures AllIn(ped, [2, 3, 9, 10])
    ensures FounderCount(ped, [2, 3, 9, 10]) == 2 && SemiFounderCount(ped, [2, 3, 9, 10]) == 0
    ensures NextGen(ped, [2, 3, 9, 10]) == [4, 5, 6, 7]
  {
    QuadLevel(ped, 2, 3, 9, 10);
    PairLevel(ped, 2, 3);
    PairLevel(ped, 9, 10);
    assert ParentsOf(ped[2]) == [4, 5] && ParentsOf(ped[3]) == [6, 7];
    assert ParentsOf(ped[9]) == [] && ParentsOf(ped[10]) == [];
    assert [4, 5] + [6, 7] + [] == [4, 5, 6, 7];
  }

  /** Level 2: four founders, and the walk stops. */
  lemma TwoLineagesLevel2(ped: Pedigree)
    requires 4 in ped && IsFounder(ped[4]) && 5 in ped && IsFounder(ped[5])
    requires 6 in ped && IsFounder(ped[6]) && 7 in ped && IsFounder(ped[7])
    ensures AllIn(ped, [4, 5, 6, 7])
    ensures FounderCount(ped, [4, 5, 6, 7]) == 4 && SemiFounderCount(ped, [4, 5, 6, 7]) == 0
    ensures NextGen(ped, [4, 5, 6, 7]) == []
  {
    QuadLevel(ped, 4, 5, 6, 7);
    PairLevel(ped, 4, 5);
    PairLevel(ped, 6, 7);
  }

  /** A level whose entries are all founders is the last one the walk counts. */
  lemma LastLevelWalk(ped: Pedigree, rank: int -> nat, a: seq<int>)
    requires WellFormed(ped, rank) && AllIn(ped, a) && a != [] && NextGen(ped, a) == []
    ensures Counts(ped, rank, a).0 == [FounderCount(ped, a)]
    ensures Counts(ped, rank, a).1 == [SemiFounderCount(ped, a)]
  {
    var none := Counts(ped, rank, []);
    assert none.0 == [] && none.1 == [];
    CountsPeel(ped, rank, a);
  }

  /** The counts of a walk are those of its first level followed by those of the walk from the next one. */
  lemma PrependLevel(ped: Pedigree, rank: int -> nat, a: seq<int>, b: seq<int>, fs: seq<nat>, ss: seq<nat>)
    requires WellFormed(ped, rank) && AllIn(ped, a) && a != [] && NextGen(ped, a) == b
    requires Counts(ped, rank, b).0 == fs && Counts(ped, rank, b).1 == ss
    ensures Counts(ped, rank, a).0 == [FounderCount(ped, a)] + fs
    ensures Counts(ped, rank, a).1 == [SemiFounderCount(ped, a)] + ss
  {
    CountsPeel(ped, rank, a);
  }

  /** Three singletons joined in order form the three-element list. */
  lemma JoinThree(x: nat, y: nat, z: nat)
    ensures [x] + ([y] + [z]) == [x, y, z]
  {
  }

  /** A walk that stops after three levels counts each of them once, in order. */
  lemma ThreeLevelWalk(ped: Pedigree, rank: int -> nat, a: seq<int>, b: seq<int>, c: seq<int>)
    requires WellFormed(ped, rank) && AllIn(ped, a) && a != [] && b != [] && c != []
    requires NextGen(ped, a) == b && NextGen(ped, b) == c && NextGen(ped, c) == []
    ensures Counts(ped, rank, a).0 == [FounderCount(ped, a), FounderCount(ped, b), FounderCount(ped, c)]
    ensures Counts(ped, rank, a).1
         == [SemiFounderCount(ped, a), SemiFounderCount(ped, b), SemiFounderCount(ped, c)]
  {
    var fa, fb, fc := FounderCount(ped, a), FounderCount(ped, b), FounderCount(ped, c);
    var sa, sb, sc := SemiFounderCount(ped, a), SemiFounderCount(ped, b), SemiFounderCount(ped, c);
    LastLevelWalk(ped, rank, c);
    PrependLevel(ped, rank, b, c, [fc], [sc]);
    PrependLevel(ped, rank, a, b, [fb] + [fc], [sb] + [sc]);
    JoinThree(fa, fb, fc);
    JoinThree(sa, sb, sc);
  }

  lemma TwoLineagesEntries()
    ensures 1 in TwoLineages && TwoLineages[1] == Parents(2, 3)
    ensures 8 in TwoLineages && TwoLineages[8] == Parents(9, 10)
    ensures 2 in TwoLineages && TwoLineages[2] == Parents(4, 5)
    ensures 3 in TwoLineages && TwoLineages[3] == Parents(6, 7)
    ensures forall x :: x in {4, 5, 6, 7, 9, 10} ==> x in TwoLineages && IsFounder(TwoLineages[x])
  {
  }

  /** The walk from [1, 8] over `TwoLineages` counts founders [0, 2, 4] and no semi-founder. */
  lemma TwoLineagesExample(rank: int -> nat)
    requires rank(2) < rank(1) && rank(3) < rank(1) && rank(9) < rank(8) && rank(10) < rank(8)
    requires rank(4) < rank(2) && rank(5) < rank(2) && rank(6) < rank(3) && rank(7) < rank(3)
    ensures WellFormed(TwoLineages, rank) && AllIn(TwoLineages, [1, 8])
    ensures Counts(TwoLineages, rank, [1, 8]) == ([0, 2, 4], [0, 0, 0])
  {
    var ped := TwoLineages;
    TwoLineagesWellFormed(rank);
    TwoLineagesEntries();
    TwoLineagesLevel0(ped);
    TwoLineagesLevel1(ped);
    TwoLineagesLevel2(ped);
    ThreeLevelWalk(ped, rank, [1, 8], [2, 3, 9, 10], [4, 5, 6, 7]);
  }
}
