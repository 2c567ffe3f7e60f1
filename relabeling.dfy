/**
 * The walk reads an identifier only to look up that individual's parents and
 * to compare a parent link with the sentinel. So renaming the individuals
 * leaves the two count lists unchanged. So does changing any part of the
 * pedigree that the walk from the probands never reaches.
 */
module Relabeling {
  import opened Pedigrees
  import opened Generations

  /** `s` maps the sentinel to itself and no individual to the sentinel. */
  ghost predicate KeepsAbsent(s: int -> int) {
    forall x :: s(x) == Absent <==> x == Absent
  }

  /** The parent links of one individual under the renaming `s`. */
  function Rename(s: int -> int, p: Parents): Parents {
    Parents(s(p.father), s(p.mother))
  }

  /** A level under the renaming `s`, entry by entry. */
  function Renamed(s: int -> int, gen: seq<int>): (r: seq<int>)
    ensures |r| == |gen|
    ensures forall i :: 0 <= i < |gen| ==> r[i] == s(gen[i])
  {
    seq(|gen|, i requires 0 <= i < |gen| => s(gen[i]))
  }

  /**
   * Every entry of `gen` is renamed by `s` to an individual of `ped2` whose
   * links are the renamed links of the entry in `ped`.
   */
  ghost predicate Corresponds(ped: Pedigree, ped2: Pedigree, s: int -> int, gen: seq<int>)
    requires AllIn(ped, gen)
  {
    forall i :: 0 <= i < |gen| ==> s(gen[i]) in ped2 && ped2[s(gen[i])] == Rename(s, ped[gen[i]])
  }

  /** A renaming that keeps the sentinel keeps the kind of an individual and renames its parents in order. */
  lemma ParentsRenamed(s: int -> int, p: Parents)
    requires KeepsAbsent(s)
    ensures IsFounder(Rename(s, p)) <==> IsFounder(p)
    ensures IsSemiFounder(Rename(s, p)) <==> IsSemiFounder(p)
    ensures ParentsOf(Rename(s, p)) == Renamed(s, ParentsOf(p))
  {
    assert (s(p.father) == Absent) == (p.father == Absent);
    assert (s(p.mother) == Absent) == (p.mother == Absent);
  }

  /** Renaming commutes with appending to a level. */
  lemma RenamedAppend(s: int -> int, a: seq<int>, b: seq<int>)
    ensures Renamed(s, a + b) == Renamed(s, a) + Renamed(s, b)
  {
  }

  /**
   * One level: if `ped2` corresponds to `ped` on the entries of `gen`, the
   * renamed level has the same founder and semi-founder counts, and its next
   * level is the renamed next level.
   */
  lemma {:induction false} LevelCorresponds(ped: Pedigree, ped2: Pedigree, s: int -> int, gen: seq<int>)
    requires KeepsAbsent(s) && AllIn(ped, gen) && Corresponds(ped, ped2, s, gen)
    ensures AllIn(ped2, Renamed(s, gen))
    ensures FounderCount(ped2, Renamed(s, gen)) == FounderCount(ped, gen)
    ensures SemiFounderCount(ped2, Renamed(s, gen)) == SemiFounderCount(ped, gen)
    ensures NextGen(ped2, Renamed(s, gen)) == Renamed(s, NextGen(ped, gen))
  {
    if gen != [] {
      var prefix, last := gen[..|gen| - 1], gen[|gen| - 1];
      assert Corresponds(ped, ped2, s, prefix);
      LevelCorresponds(ped, ped2, s, prefix);
      var r := Renamed(s, gen);
      assert r[..|r| - 1] == Renamed(s, prefix);
      assert r[|r| - 1] == s(last);
      ParentsRenamed(s, ped[last]);
      RenamedAppend(s, NextGen(ped, prefix), ParentsOf(ped[last]));
    }
  }

  /**
   * The whole walk: if `ped2` corresponds to `ped` under `s` on every level
   * of the walk from `gen`, the walk from the renamed level gives the same
   * count lists.
   */
  lemma {:induction false} CountsCorrespond(ped: Pedigree, rank: int -> nat, ped2: Pedigree, rank2: int -> nat,
                                            s: int -> int, gen: seq<int>)
    requires WellFormed(ped, rank) && WellFormed(ped2, rank2) && KeepsAbsent(s) && AllIn(ped, gen)
    requires forall g: nat :: Corresponds(ped, ped2, s, Level(ped, gen, g))
    ensures AllIn(ped2, Renamed(s, gen))
    ensures Counts(ped2, rank2, Renamed(s, gen)) == Counts(ped, rank, gen)
    decreases Measure(rank, gen)
  {
    assert Level(ped, gen, 0) == gen;
    LevelCorresponds(ped, ped2, s, gen);
    if gen != [] {
      var next := NextGen(ped, gen);
      forall g: nat
        ensures Corresponds(ped, ped2, s, Level(ped, next, g))
      {
        assert Level(ped, gen, g + 1) == Level(ped, next, g);
      }
      CountsPeel(ped, rank, gen);
      CountsCorrespond(ped, rank, ped2, rank2, s, next);
      CountsPeel(ped2, rank2, Renamed(s, gen));
    }
  }

  /** `ped2` is `ped` with every individual and every parent link renamed by `s`. */
  ghost predicate Relabels(ped: Pedigree, ped2: Pedigree, s: int -> int) {
    && KeepsAbsent(s)
    && forall x :: x in ped ==> s(x) in ped2 && ped2[s(x)] == Rename(s, ped[x])
  }

  /** Renaming the individuals does not change the counts of the walk. */
  lemma CountsRelabel(ped: Pedigree, rank: int -> nat, ped2: Pedigree, rank2: int -> nat,
                      s: int -> int, pro: seq<int>)
    requires WellFormed(ped, rank) && WellFormed(ped2, rank2) && Relabels(ped, ped2, s) && AllIn(ped, pro)
    ensures AllIn(ped2, Renamed(s, pro))
    ensures Counts(ped2, rank2, Renamed(s, pro)) == Counts(ped, rank, pro)
  {
    forall g: nat
      ensures Corresponds(ped, ped2, s, Level(ped, pro, g))
    {
      var l := Level(ped, pro, g);
      forall i | 0 <= i < |l|
        ensures s(l[i]) in ped2 && ped2[s(l[i])] == Rename(s, ped[l[i]])
      {
        var x := l[i];
        assert x in ped;
        assert s(x) in ped2 && ped2[s(x)] == Rename(s, ped[x]);
      }
    }
    CountsCorrespond(ped, rank, ped2, rank2, s, pro);
  }

  /** The pedigree `ped` with its individuals renamed by `s`, whose inverse is `t`. */
  function Relabel(ped: Pedigree, s: int -> int, t: int -> int): (r: Pedigree)
    requires forall x :: t(s(x)) == x
    ensures forall x :: x in ped <==> s(x) in r
  {
    map x | x in ped :: s(x) := Rename(s, ped[x])
  }

  /**
   * An invertible renaming that keeps the sentinel turns a well-formed
   * pedigree into a well-formed one, ranked through the inverse.
   */
  lemma RelabelWellFormed(ped: Pedigree, rank: int -> nat, s: int -> int, t: int -> int)
    requires WellFormed(ped, rank) && KeepsAbsent(s) && forall x :: t(s(x)) == x
    ensures Relabels(ped, Relabel(ped, s, t), s)
    ensures WellFormed(Relabel(ped, s, t), x => rank(t(x)))
  {
    var r := Relabel(ped, s, t);
    forall x | x in ped
      ensures s(x) in r && r[s(x)] == Rename(s, ped[x])
    {
    }
    forall y | y in r
      ensures y == s(t(y)) && t(y) in ped
    {
    }
  }

  /** Renaming a pedigree by an invertible map that keeps the sentinel leaves the walk's counts unchanged. */
  lemma CountsUnderRelabel(ped: Pedigree, rank: int -> nat, s: int -> int, t: int -> int, pro: seq<int>)
    requires WellFormed(ped, rank) && KeepsAbsent(s) && (forall x :: t(s(x)) == x) && AllIn(ped, pro)
    ensures WellFormed(Relabel(ped, s, t), x => rank(t(x))) && AllIn(Relabel(ped, s, t), Renamed(s, pro))
    ensures Counts(Relabel(ped, s, t), x => rank(t(x)), Renamed(s, pro)) == Counts(ped, rank, pro)
  {
    RelabelWellFormed(ped, rank, s, t);
    CountsRelabel(ped, rank, Relabel(ped, s, t), x => rank(t(x)), s, pro);
  }

  /** Within one level, `ped2` holds the same parent links as `ped`. */
  ghost predicate AgreeOn(ped: Pedigree, ped2: Pedigree, gen: seq<int>)
    requires AllIn(ped, gen)
  {
    forall i :: 0 <= i < |gen| ==> gen[i] in ped2 && ped2[gen[i]] == ped[gen[i]]
  }

  /**
   * Only the part of the pedigree the walk reaches matters: a pedigree that
   * agrees with `ped` on every level of the walk from `pro` gives the same
   * count lists, whatever else it holds.
   */
  lemma CountsReachableOnly(ped: Pedigree, rank: int -> nat, ped2: Pedigree, rank2: int -> nat, pro: seq<int>)
    requires WellFormed(ped, rank) && WellFormed(ped2, rank2) && AllIn(ped, pro)
    requires forall g: nat :: AgreeOn(ped, ped2, Level(ped, pro, g))
    ensures AllIn(ped2, pro)
    ensures Counts(ped2, rank2, pro) == Counts(ped, rank, pro)
  {
    var id := (x: int) => x;
    forall g: nat
      ensures Corresponds(ped, ped2, id, Level(ped, pro, g))
    {
      assert AgreeOn(ped, ped2, Level(ped, pro, g));
    }
    CountsCorrespond(ped, rank, ped2, rank2, id, pro);
    assert Renamed(id, pro) == pro;
  }
}
