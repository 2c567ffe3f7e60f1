/**
 * The read-only pedigree graph that the generational walk of geneo queries:
 * for every individual, the identifier of its father and of its mother, where
 * the identifier 0 means "no recorded parent".
 */
module Pedigrees {

  /** The sentinel the pedigree stores where a parent is not recorded. */
  const Absent: int := 0

  /** The two parent links of one individual (`gen[ind].father.ind`, `gen[ind].mother.ind`). */
  datatype Parents = Parents(father: int, mother: int)

  /** A pedigree maps each individual's identifier to its parent links. */
  type Pedigree = map<int, Parents>

  /** Both parents absent. */
  predicate IsFounder(p: Parents) {
    p.father == Absent && p.mother == Absent
  }

  /** Exactly one parent absent (the exclusive-or test of the walk). */
  predicate IsSemiFounder(p: Parents) {
    (p.father == Absent) != (p.mother == Absent)
  }

  /** Both parents recorded: such an individual is neither founder nor semi-founder. */
  predicate HasBothParents(p: Parents) {
    p.father != Absent && p.mother != Absent
  }

  /**
   * The recorded parents of one individual, in the order the walk appends
   * them to the next generation: the father first, then the mother.
   */
  function ParentsOf(p: Parents): (r: seq<int>)
    ensures Absent !in r
    ensures forall i :: 0 <= i < |r| ==> r[i] == p.father || r[i] == p.mother
    ensures IsFounder(p) <==> |r| == 0
    ensures IsSemiFounder(p) <==> |r| == 1
    ensures HasBothParents(p) <==> |r| == 2
    ensures p.father != Absent ==> r[0] == p.father
    ensures p.mother != Absent ==> r[|r| - 1] == p.mother
  {
    (if p.father != Absent then [p.father] else [])
    + (if p.mother != Absent then [p.mother] else [])
  }

  /** Every identifier of `gen` is an individual of the pedigree. */
  ghost predicate AllIn(ped: Pedigree, gen: seq<int>) {
    forall i :: 0 <= i < |gen| ==> gen[i] in ped
  }

  /**
   * The pedigree is closed under its parent links, and the sentinel is never
   * the identifier of an individual.
   */
  ghost predicate Closed(ped: Pedigree) {
    && Absent !in ped
    && forall id {:trigger ped[id]} :: id in ped ==>
         && (ped[id].father != Absent ==> ped[id].father in ped)
         && (ped[id].mother != Absent ==> ped[id].mother in ped)
  }

  /**
   * `rank` witnesses that the ancestry is acyclic: every recorded parent has
   * a strictly smaller rank than its child.
   */
  ghost predicate RankedBy(ped: Pedigree, rank: int -> nat) {
    forall id {:trigger ped[id]} :: id in ped ==>
      && (ped[id].father != Absent ==> rank(ped[id].father) < rank(id))
      && (ped[id].mother != Absent ==> rank(ped[id].mother) < rank(id))
  }

  /** A pedigree on which the generational walk is defined and terminates. */
  ghost predicate WellFormed(ped: Pedigree, rank: int -> nat) {
    Closed(ped) && RankedBy(ped, rank)
  }
}
