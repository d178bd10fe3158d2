/**
 * Experience stages: which lists of level ranges are accepted, and what an accepted list means for a
 * level.
 */
module Stages {
  import opened Prelude

  datatype Stage = Stage(minLevel: u32, maxLevel: u32, multiplierMilli: u32)

  const MAX_STAGES: nat := 512
  const MAX_MULTIPLIER_MILLI: u32 := 100_000

  // ----- sorting -----

  /** Puts a stage before the first one that starts later: later entries stay behind equal ones. */
  function Inserted(s: Stage, sorted: seq<Stage>): seq<Stage> {
    if sorted == [] || s.minLevel <= sorted[0].minLevel then [s] + sorted
    else [sorted[0]] + Inserted(s, sorted[1..])
  }

  /** The stable sort by first level. */
  function SortedByLevel(stages: seq<Stage>): seq<Stage> {
    if stages == [] then [] else Inserted(stages[0], SortedByLevel(stages[1..]))
  }

  predicate ByLevel(stages: seq<Stage>) {
    forall i, j | 0 <= i < j < |stages| :: stages[i].minLevel <= stages[j].minLevel
  }

  lemma {:induction false} InsertedReorders(s: Stage, sorted: seq<Stage>)
    ensures multiset(Inserted(s, sorted)) == multiset(sorted) + multiset{s}
  {
    if sorted != [] && s.minLevel > sorted[0].minLevel {
      InsertedReorders(s, sorted[1..]);
      assert sorted == [sorted[0]] + sorted[1..];
    }
  }

  lemma {:induction false} InsertedHolds(s: Stage, sorted: seq<Stage>)
    ensures forall x :: x in Inserted(s, sorted) <==> x == s || x in sorted
    ensures ByLevel(sorted) ==> ByLevel(Inserted(s, sorted))
  {
    if sorted != [] && s.minLevel > sorted[0].minLevel {
      var rest := Inserted(s, sorted[1..]);
      InsertedHolds(s, sorted[1..]);
      assert sorted == [sorted[0]] + sorted[1..];
      if ByLevel(sorted) {
        forall i | 0 <= i < |rest| ensures sorted[0].minLevel <= rest[i].minLevel {
          assert rest[i] in rest;
        }
      }
    }
  }

  /** Sorting reorders and does nothing else. */
  lemma {:induction false} SortingReorders(stages: seq<Stage>)
    ensures ByLevel(SortedByLevel(stages))
    ensures multiset(SortedByLevel(stages)) == multiset(stages)
  {
    if stages != [] {
      SortingReorders(stages[1..]);
      InsertedHolds(stages[0], SortedByLevel(stages[1..]));
      InsertedReorders(stages[0], SortedByLevel(stages[1..]));
      assert stages == [stages[0]] + stages[1..];
    }
  }

  // ----- validation -----

  predicate Proper(s: Stage) {
    1 <= s.minLevel <= s.maxLevel && 1 <= s.multiplierMilli <= MAX_MULTIPLIER_MILLI
  }

  predicate Covers(s: Stage, level: nat) {
    s.minLevel <= level <= s.maxLevel
  }

  predicate Disjoint(a: Stage, b: Stage) {
    a.maxLevel < b.minLevel || b.maxLevel < a.minLevel
  }

  /** No two stages of the list share a level. */
  predicate PairwiseDisjoint(stages: seq<Stage>) {
    forall i, j | 0 <= i < j < |stages| :: Disjoint(stages[i], stages[j])
  }

  predicate NoOverlap(sorted: seq<Stage>) {
    forall i | 0 < i < |sorted| :: sorted[i - 1].maxLevel < sorted[i].minLevel
  }

  function Validated(stages: seq<Stage>): Result<seq<Stage>> {
    var sorted := SortedByLevel(stages);
    if sorted == [] || !NoOverlap(sorted) || exists i :: 0 <= i < |sorted| && !Proper(sorted[i]) then Err else Ok(sorted)
  }

  lemma PairwiseStep(s: Stage, rest: seq<Stage>)
    ensures PairwiseDisjoint([s] + rest) <==> PairwiseDisjoint(rest) && forall x | x in rest :: Disjoint(s, x)
  {
    var all := [s] + rest;
    assert forall i | 0 < i < |all| :: all[i] == rest[i - 1];
    if PairwiseDisjoint(all) {
      forall i, j | 0 <= i < j < |rest| ensures Disjoint(rest[i], rest[j]) {
        assert Disjoint(all[i + 1], all[j + 1]);
      }
      forall x | x in rest ensures Disjoint(s, x) {
        var i :| 0 <= i < |rest| && rest[i] == x;
        assert Disjoint(all[0], all[i + 1]);
      }
    }
  }

  lemma {:induction false} InsertedIsDisjoint(s: Stage, sorted: seq<Stage>)
    ensures PairwiseDisjoint(Inserted(s, sorted)) <==> PairwiseDisjoint([s] + sorted)
  {
    if sorted != [] && s.minLevel > sorted[0].minLevel {
      var first, rest := sorted[0], sorted[1..];
      assert sorted == [first] + rest;
      InsertedIsDisjoint(s, rest);
      InsertedHolds(s, rest);
      PairwiseStep(first, Inserted(s, rest));
      PairwiseStep(s, rest);
      PairwiseStep(first, rest);
      PairwiseStep(s, sorted);
      assert s in Inserted(s, rest) && first in sorted;
      assert forall x | x in rest :: x in sorted && x in Inserted(s, rest);
    }
  }

  lemma {:induction false} SortedIsDisjoint(stages: seq<Stage>)
    ensures forall x :: x in SortedByLevel(stages) <==> x in stages
    ensures PairwiseDisjoint(SortedByLevel(stages)) <==> PairwiseDisjoint(stages)
  {
    if stages != [] {
      assert stages == [stages[0]] + stages[1..];
      SortedIsDisjoint(stages[1..]);
      InsertedIsDisjoint(stages[0], SortedByLevel(stages[1..]));
      InsertedHolds(stages[0], SortedByLevel(stages[1..]));
      PairwiseStep(stages[0], stages[1..]);
      PairwiseStep(stages[0], SortedByLevel(stages[1..]));
    }
  }

  lemma {:induction false} EarlierEndBeforeLater(sorted: seq<Stage>, i: nat, j: nat)
    requires i < j < |sorted| && NoOverlap(sorted)
    requires forall k | 0 <= k < |sorted| :: sorted[k].minLevel <= sorted[k].maxLevel
    ensures sorted[i].maxLevel < sorted[j].minLevel
    decreases j
  {
    if i < j - 1 {
      EarlierEndBeforeLater(sorted, i, j - 1);
    }
  }

  /** Neighbours that do not overlap, in a sorted list, are the same as no overlap at all. */
  lemma NeighboursSuffice(sorted: seq<Stage>)
    requires ByLevel(sorted)
    requires forall k | 0 <= k < |sorted| :: sorted[k].minLevel <= sorted[k].maxLevel
    ensures NoOverlap(sorted) <==> PairwiseDisjoint(sorted)
  {
    if NoOverlap(sorted) {
      forall i, j | 0 <= i < j < |sorted| ensures Disjoint(sorted[i], sorted[j]) {
        EarlierEndBeforeLater(sorted, i, j);
      }
    }
    if PairwiseDisjoint(sorted) {
      forall i | 0 < i < |sorted| ensures sorted[i - 1].maxLevel < sorted[i].minLevel {
        assert Disjoint(sorted[i - 1], sorted[i]);
      }
    }
  }

  /** A list is accepted exactly if it is nonempty, its stages are proper, and no two share a level. */
  lemma AcceptsExactlyDisjointLists(stages: seq<Stage>)
    ensures Validated(stages).Ok? <==> stages != [] && (forall x | x in stages :: Proper(x)) && PairwiseDisjoint(stages)
    ensures Validated(stages).Ok? ==>
      ByLevel(Validated(stages).value) && multiset(Validated(stages).value) == multiset(stages)
  {
    var sorted := SortedByLevel(stages);
    SortingReorders(stages);
    SortedIsDisjoint(stages);
    assert |sorted| == |multiset(sorted)| == |multiset(stages)| == |stages|;
    assert (forall x | x in stages :: Proper(x)) <==> forall i | 0 <= i < |sorted| :: Proper(sorted[i]);
    if forall i | 0 <= i < |sorted| :: Proper(sorted[i]) {
      NeighboursSuffice(sorted);
    }
  }

  /** The stage that applies to a level: the first of the list that covers it. */
  function StageFor(stages: seq<Stage>, level: nat): Option<Stage> {
    if stages == [] then None
    else if Covers(stages[0], level) then Some(stages[0])
    else StageFor(stages[1..], level)
  }

  /** In a validated list, a stage applies to a level exactly if it covers it: there is at most one. */
  lemma {:induction false} AtMostOneStage(stages: seq<Stage>, level: nat, s: Stage)
    requires PairwiseDisjoint(stages) && s in stages
    ensures StageFor(stages, level) == Some(s) <==> Covers(s, level)
  {
    var first, rest := stages[0], stages[1..];
    assert stages == [first] + rest;
    PairwiseStep(first, rest);
    if s in rest {
      AtMostOneStage(rest, level, s);
    }
    assert s != first ==> s in rest;
    StageForIsThere(rest, level);
  }

  lemma {:induction false} StageForIsThere(stages: seq<Stage>, level: nat)
    ensures StageFor(stages, level).Some? ==> StageFor(stages, level).value in stages && Covers(StageFor(stages, level).value, level)
  {
    if stages != [] {
      StageForIsThere(stages[1..], level);
    }
  }
}
