/** Restart snapshots of the static creatures: what is written, what a restore accepts and rebuilds. */
module Restart {
  import opened Prelude
  import opened Geometry
  import opened Creatures

  datatype Record = Record(
    id: CreatureId,
    position: Position,
    active: bool,
    health: u8,
    reactivation: Option<u32>,
    melee: Option<u32>,
    sequence: u64)

  // ----- taking a snapshot -----

  /** A remaining time as an unsigned 32-bit number, saturating at both ends. */
  function Remaining(until: u64, tick: u64): u32 {
    if until <= tick then 0 else if until - tick > U32_MAX then U32_MAX else until - tick
  }

  /** Dormant templates (inactive at the unplaced origin) are not written. */
  predicate Persisted(c: Creature) {
    c.active || c.position != ORIGIN
  }

  function RecordOf(id: CreatureId, c: Creature, tick: u64): Record {
    Record(id, c.position, c.active, c.health,
           if c.due.Some? then Some(Remaining(c.due.value, tick)) else None,
           if c.cooldown.Some? then Some(Remaining(c.nextMelee, tick)) else None,
           c.sequence)
  }

  function Snapshot(ids: seq<CreatureId>, cs: Registry, tick: u64): seq<Record>
    requires forall id | id in ids :: id in cs
  {
    if ids == [] then []
    else (if Persisted(cs[ids[0]]) then [RecordOf(ids[0], cs[ids[0]], tick)] else []) + Snapshot(ids[1..], cs, tick)
  }

  // ----- restoring -----

  /** A record that the restore looks at: placed, and for an installed creature. */
  predicate Known(r: Record, cs: Registry) {
    r.position != ORIGIN && r.id in cs
  }

  /** The per-record checks. */
  predicate Plausible(r: Record, c: Creature) {
    && !(r.active && r.reactivation.Some?)
    && (r.reactivation.Some? ==> c.interval != 0 && r.reactivation.value <= c.interval)
    && (r.melee.Some? ==> r.active && c.cooldown.Some? && r.melee.value <= c.cooldown.value)
  }

  predicate Acceptable(r: Record, cs: Registry) {
    r.position != ORIGIN ==> r.health <= 100 && (r.id in cs ==> Plausible(r, cs[r.id]))
  }

  predicate UniqueIds(rs: seq<Record>) {
    forall i, j | 0 <= i < j < |rs| :: rs[i].id != rs[j].id
  }

  /** Some record speaks about this creature. */
  predicate Restoring(rs: seq<Record>, cs: Registry, id: CreatureId) {
    exists i :: 0 <= i < |rs| && Known(rs[i], cs) && rs[i].id == id
  }

  /** Active creatures that no record speaks about keep their tiles. */
  function KeptTiles(rs: seq<Record>, cs: Registry): set<Position> {
    set id | id in cs && cs[id].active && !Restoring(rs, cs, id) :: cs[id].position
  }

  predicate Places(r: Record, cs: Registry) {
    Known(r, cs) && r.active
  }

  /** The prospective occupancy is conflict free. */
  predicate NoConflict(rs: seq<Record>, cs: Registry, players: set<Position>) {
    && (forall i | 0 <= i < |rs| && Places(rs[i], cs) ::
          rs[i].position !in players && rs[i].position !in KeptTiles(rs, cs))
    && PlacedApart(rs, cs)
  }

  predicate Restorable(rs: seq<Record>, cs: Registry, players: set<Position>) {
    UniqueIds(rs) && (forall i | 0 <= i < |rs| :: Acceptable(rs[i], cs)) && NoConflict(rs, cs, players)
  }

  /** A deadline counted from the restoring world's clock. */
  function Deadline(remaining: Option<u32>, tick: u64): Option<u64> {
    if remaining.Some? then Some(SatAdd(tick, remaining.value)) else None
  }

  function RestoredCreature(c: Creature, r: Record, tick: u64): Creature
    requires r.health <= 100
  {
    var c' := c.(position := r.position, active := r.active, health := r.health, target := None,
                 sequence := r.sequence,
                 nextMelee := if r.melee.Some? then SatAdd(tick, r.melee.value) else tick);
    if r.active then c'.(activatedAt := tick, inactiveSince := None, due := None)
    else c'.(inactiveSince := Some(tick), due := Deadline(r.reactivation, tick))
  }

  /** The registry after the records have been applied in order. */
  function Restored(rs: seq<Record>, cs: Registry, tick: u64): (cs': Registry)
    requires forall i | 0 <= i < |rs| :: Acceptable(rs[i], cs)
    ensures cs'.Keys == cs.Keys
  {
    if rs == [] then cs
    else
      var before := Restored(rs[..|rs| - 1], cs, tick);
      var r := rs[|rs| - 1];
      assert Acceptable(r, cs);
      if Known(r, cs) then before[r.id := RestoredCreature(cs[r.id], r, tick)] else before
  }

  lemma {:induction false} RestoredAt(rs: seq<Record>, cs: Registry, tick: u64)
    requires UniqueIds(rs) && forall i | 0 <= i < |rs| :: Acceptable(rs[i], cs)
    ensures forall i | 0 <= i < |rs| && Known(rs[i], cs) ::
              Restored(rs, cs, tick)[rs[i].id] == RestoredCreature(cs[rs[i].id], rs[i], tick)
    ensures forall id | id in cs && (forall i | 0 <= i < |rs| :: Known(rs[i], cs) ==> rs[i].id != id) ::
              Restored(rs, cs, tick)[id] == cs[id]
  {
    if rs != [] {
      var front := rs[..|rs| - 1];
      RestoredAt(front, cs, tick);
      forall id | id in cs && (forall i | 0 <= i < |rs| :: Known(rs[i], cs) ==> rs[i].id != id)
        ensures Restored(rs, cs, tick)[id] == cs[id]
      {
        forall i | 0 <= i < |front| && Known(front[i], cs) ensures front[i].id != id {
          assert rs[i] == front[i];
        }
      }
      forall i | 0 <= i < |rs| && Known(rs[i], cs)
        ensures Restored(rs, cs, tick)[rs[i].id] == RestoredCreature(cs[rs[i].id], rs[i], tick)
      {
        if i < |front| {
          assert front[i] == rs[i];
        }
      }
    }
  }

  // ----- the records a restore keeps -----

  function KnownOf(rs: seq<Record>, cs: Registry): seq<Record> {
    if rs == [] then []
    else KnownOf(rs[..|rs| - 1], cs) + if Known(rs[|rs| - 1], cs) then [rs[|rs| - 1]] else []
  }

  /** Two placing records that come in this order name different tiles. */
  predicate PlacedApart(rs: seq<Record>, cs: Registry) {
    forall i, j | 0 <= i < j < |rs| && Places(rs[i], cs) && Places(rs[j], cs) :: rs[i].position != rs[j].position
  }

  lemma {:induction false} KnownOfHolds(rs: seq<Record>, cs: Registry)
    ensures forall r :: r in KnownOf(rs, cs) <==> r in rs && Known(r, cs)
  {
    if rs != [] {
      KnownOfHolds(rs[..|rs| - 1], cs);
      assert rs == rs[..|rs| - 1] + [rs[|rs| - 1]];
    }
  }

  predicate ClearOf(r: Record, rs: seq<Record>, cs: Registry) {
    Places(r, cs) ==> forall x | x in rs && Places(x, cs) :: x.position != r.position
  }

  lemma ApartStep(front: seq<Record>, r: Record, cs: Registry)
    ensures PlacedApart(front + [r], cs) <==> PlacedApart(front, cs) && ClearOf(r, front, cs)
  {
    var all := front + [r];
    assert forall i | 0 <= i < |front| :: all[i] == front[i];
    if PlacedApart(all, cs) && Places(r, cs) {
      forall x | x in front && Places(x, cs) ensures x.position != r.position {
        var i :| 0 <= i < |front| && front[i] == x;
        assert Places(all[i], cs) && Places(all[|front|], cs);
      }
    }
  }

  lemma {:induction false} KnownOfPlacesTheSame(rs: seq<Record>, cs: Registry)
    ensures PlacedApart(KnownOf(rs, cs), cs) <==> PlacedApart(rs, cs)
  {
    if rs != [] {
      var front, r := rs[..|rs| - 1], rs[|rs| - 1];
      assert rs == front + [r];
      KnownOfHolds(front, cs);
      KnownOfPlacesTheSame(front, cs);
      ApartStep(front, r, cs);
      ApartStep(KnownOf(front, cs), r, cs);
      if Known(r, cs) {
        assert KnownOf(rs, cs) == KnownOf(front, cs) + [r];
        assert forall x :: x in KnownOf(front, cs) && Places(x, cs) <==> x in front && Places(x, cs);
      } else {
        assert KnownOf(rs, cs) == KnownOf(front, cs);
      }
    }
  }

  lemma {:induction false} KnownOfIsUnique(rs: seq<Record>, cs: Registry)
    requires UniqueIds(rs)
    ensures UniqueIds(KnownOf(rs, cs))
  {
    if rs != [] {
      var front, r := rs[..|rs| - 1], rs[|rs| - 1];
      var kept := KnownOf(front, cs);
      KnownOfHolds(front, cs);
      KnownOfIsUnique(front, cs);
      forall i | 0 <= i < |kept| ensures kept[i].id != r.id {
        assert kept[i] in front;
      }
    }
  }

  lemma {:induction false} RestoredFromKnown(rs: seq<Record>, cs: Registry, tick: u64)
    requires forall i | 0 <= i < |rs| :: Acceptable(rs[i], cs)
    ensures forall i | 0 <= i < |KnownOf(rs, cs)| :: Acceptable(KnownOf(rs, cs)[i], cs)
    ensures Restored(KnownOf(rs, cs), cs, tick) == Restored(rs, cs, tick)
  {
    if rs != [] {
      RestoredFromKnown(rs[..|rs| - 1], cs, tick);
      var known := KnownOf(rs, cs);
      if Known(rs[|rs| - 1], cs) {
        assert known[..|known| - 1] == KnownOf(rs[..|rs| - 1], cs);
      } else {
        assert known == KnownOf(rs[..|rs| - 1], cs);
      }
    }
  }

  /** Looking only at the known records decides about conflicts among all of them. */
  lemma ConflictAmongKnown(rs: seq<Record>, cs: Registry, players: set<Position>)
    ensures NoConflict(KnownOf(rs, cs), cs, players) <==> NoConflict(rs, cs, players)
  {
    var known := KnownOf(rs, cs);
    KnownOfHolds(rs, cs);
    KnownOfPlacesTheSame(rs, cs);
    forall id | id in cs
      ensures Restoring(known, cs, id) <==> Restoring(rs, cs, id)
    {
      if Restoring(known, cs, id) {
        var i :| 0 <= i < |known| && Known(known[i], cs) && known[i].id == id;
        assert known[i] in rs;
      }
      if Restoring(rs, cs, id) {
        var i :| 0 <= i < |rs| && Known(rs[i], cs) && rs[i].id == id;
        assert rs[i] in known;
      }
    }
    assert KeptTiles(known, cs) == KeptTiles(rs, cs);
    if NoConflict(rs, cs, players) {
      forall i | 0 <= i < |known| && Places(known[i], cs)
        ensures known[i].position !in players && known[i].position !in KeptTiles(rs, cs)
      {
        assert known[i] in rs;
      }
    }
    if NoConflict(known, cs, players) {
      forall i | 0 <= i < |rs| && Places(rs[i], cs)
        ensures rs[i].position !in players && rs[i].position !in KeptTiles(rs, cs)
      {
        assert rs[i] in known;
      }
    }
  }

  /** A restore may drop the unknown records first: same checks, same result. */
  lemma KnownRecordsSuffice(rs: seq<Record>, cs: Registry, tick: u64, players: set<Position>)
    requires UniqueIds(rs) && forall i | 0 <= i < |rs| :: Acceptable(rs[i], cs)
    ensures var known := KnownOf(rs, cs);
      && UniqueIds(known)
      && (forall i | 0 <= i < |known| :: Known(known[i], cs) && Acceptable(known[i], cs))
      && (NoConflict(known, cs, players) <==> Restorable(rs, cs, players))
      && Restored(known, cs, tick) == Restored(rs, cs, tick)
  {
    var known := KnownOf(rs, cs);
    KnownOfHolds(rs, cs);
    KnownOfIsUnique(rs, cs);
    ConflictAmongKnown(rs, cs, players);
    RestoredFromKnown(rs, cs, tick);
    assert forall i | 0 <= i < |known| :: known[i] in known;
  }

  // ----- the restart round trip -----

  /** What every reachable world knows about its clocks (see `World.Valid`). */
  predicate Timed(cs: Registry, tick: u64) {
    forall id | id in cs :: TimedCreature(cs[id], tick)
  }

  predicate TimedCreature(c: Creature, tick: u64) {
    && (c.due.Some? ==> !c.active && c.interval > 0 && c.due.value <= SatAdd(tick, c.interval))
    && (c.cooldown.Some? ==> c.cooldown.value <= U32_MAX && c.nextMelee <= SatAdd(tick, c.cooldown.value))
  }

  /** What a restart leaves alone is the same in both worlds, for the creatures they share. */
  predicate SameTraits(saved: Registry, booted: Registry) {
    forall id | id in saved && id in booted :: booted[id].interval == saved[id].interval && booted[id].cooldown == saved[id].cooldown
  }

  /** The snapshot holds a record of this creature that a restore does not skip. */
  predicate Recorded(saved: Registry, id: CreatureId) {
    id in saved && saved[id].position != ORIGIN
  }

  /** A record that no restore accepts: of a waiting creature with a melee interval, known to the booted world. */
  predicate MeleeWhileAway(saved: Registry, booted: Registry) {
    exists id :: id in booted && Recorded(saved, id) && !saved[id].active && saved[id].cooldown.Some?
  }

  /** The tile that a creature of the booted world is going to hold. */
  function Prospect(saved: Registry, booted: Registry, id: CreatureId): Option<Position>
    requires id in booted
  {
    var c := if Recorded(saved, id) then saved[id] else booted[id];
    if c.active then Some(c.position) else None
  }

  /** Every recorded creature finds its tile clear of players and of all the others. */
  predicate Fits(saved: Registry, booted: Registry, players: set<Position>) {
    forall b | b in booted && Recorded(saved, b) && saved[b].active ::
      && saved[b].position !in players
      && forall a | a in booted && a != b :: Prospect(saved, booted, a) != Some(saved[b].position)
  }

  predicate NobodyOnOrigin(cs: Registry) {
    forall id | id in cs && cs[id].active :: cs[id].position != ORIGIN
  }

  /** Every creature that the booted world puts on the map has a record. */
  predicate Resumed(saved: Registry, booted: Registry) {
    forall id | id in booted && Persisted(booted[id]) :: Recorded(saved, id)
  }

  /** Every record is of a creature that the booted world knows, away from the origin: no summons, nobody on the origin. */
  predicate Whole(saved: Registry, booted: Registry) {
    forall id | id in saved && Persisted(saved[id]) :: id in booted && saved[id].position != ORIGIN
  }

  predicate FromRegistry(rs: seq<Record>, ids: seq<CreatureId>, cs: Registry, tick: u64) {
    forall i | 0 <= i < |rs| ::
      rs[i].id in ids && rs[i].id in cs && Persisted(cs[rs[i].id]) && rs[i] == RecordOf(rs[i].id, cs[rs[i].id], tick)
  }

  predicate Mentions(rs: seq<Record>, id: CreatureId) {
    exists i :: 0 <= i < |rs| && rs[i].id == id
  }

  lemma {:induction false} SnapshotHolds(ids: seq<CreatureId>, cs: Registry, tick: u64)
    requires NoRepeats(ids) && forall id | id in ids :: id in cs
    ensures FromRegistry(Snapshot(ids, cs, tick), ids, cs, tick)
    ensures UniqueIds(Snapshot(ids, cs, tick))
    decreases |ids|
  {
    if ids != [] {
      var id, rest := ids[0], ids[1..];
      TailNoRepeats(ids);
      SnapshotHolds(rest, cs, tick);
      var rs, tail := Snapshot(ids, cs, tick), Snapshot(rest, cs, tick);
      if Persisted(cs[id]) {
        assert rs == [RecordOf(id, cs[id], tick)] + tail;
        forall i | 0 < i < |rs| ensures rs[i] == tail[i - 1] && rs[i].id in rest && rs[i].id != rs[0].id {}
      } else {
        assert rs == tail;
      }
    }
  }

  lemma {:induction false} SnapshotMentions(ids: seq<CreatureId>, cs: Registry, tick: u64, id: CreatureId)
    requires forall other | other in ids :: other in cs
    requires id in ids && Persisted(cs[id])
    ensures Mentions(Snapshot(ids, cs, tick), id)
    decreases |ids|
  {
    var rs, tail := Snapshot(ids, cs, tick), Snapshot(ids[1..], cs, tick);
    if id == ids[0] {
      assert rs[0].id == id;
    } else {
      SnapshotMentions(ids[1..], cs, tick, id);
      var i :| 0 <= i < |tail| && tail[i].id == id;
      assert rs[i + |rs| - |tail|].id == id;
    }
  }

  predicate Ordered(rs: seq<Record>) {
    forall i, j | 0 <= i < j < |rs| :: rs[i].id < rs[j].id
  }

  lemma {:induction false} SnapshotIsOrdered(ids: seq<CreatureId>, cs: Registry, tick: u64)
    requires StrictlyAscending(ids) && forall id | id in ids :: id in cs
    ensures Ordered(Snapshot(ids, cs, tick))
    ensures forall i | 0 <= i < |Snapshot(ids, cs, tick)| :: Snapshot(ids, cs, tick)[i].id in ids
    decreases |ids|
  {
    if ids != [] {
      var id, rest := ids[0], ids[1..];
      SnapshotIsOrdered(rest, cs, tick);
      var rs, tail := Snapshot(ids, cs, tick), Snapshot(rest, cs, tick);
      forall i | 0 <= i < |tail| ensures id < tail[i].id && tail[i].id in ids {
        assert tail[i].id in rest;
      }
      if Persisted(cs[id]) {
        assert forall i | 0 < i < |rs| :: rs[i] == tail[i - 1];
      } else {
        assert rs == tail;
      }
    }
  }

  lemma {:induction false} KnownOfIsOrdered(rs: seq<Record>, cs: Registry)
    requires Ordered(rs)
    ensures Ordered(KnownOf(rs, cs))
  {
    if rs != [] {
      var front, r := rs[..|rs| - 1], rs[|rs| - 1];
      var kept := KnownOf(front, cs);
      KnownOfHolds(front, cs);
      KnownOfIsOrdered(front, cs);
      forall i | 0 <= i < |kept| ensures kept[i].id < r.id {
        assert kept[i] in front;
      }
    }
  }

  lemma {:induction false} AllKnown(rs: seq<Record>, cs: Registry)
    requires forall i | 0 <= i < |rs| :: Known(rs[i], cs)
    ensures KnownOf(rs, cs) == rs
  {
    if rs != [] {
      AllKnown(rs[..|rs| - 1], cs);
    }
  }

  /** Lists of records in order are the same if they hold the same records. */
  lemma {:induction false} SameRecords(a: seq<Record>, b: seq<Record>)
    requires Ordered(a) && Ordered(b)
    requires forall r :: r in a <==> r in b
    ensures a == b
  {
    assert a != [] ==> a[0] in a && a[0] in b;
    assert b != [] ==> b[0] in b && b[0] in a;
    if a != [] {
      assert a[0] == b[0];
      assert a == [a[0]] + a[1..] && b == [b[0]] + b[1..];
      forall r ensures r in a[1..] <==> r in b[1..] {
        RestOfRecords(a, r);
        RestOfRecords(b, r);
      }
      SameRecords(a[1..], b[1..]);
    }
  }

  lemma RestOfRecords(rs: seq<Record>, r: Record)
    requires rs != [] && Ordered(rs)
    ensures r in rs[1..] <==> r in rs && r != rs[0]
  {
    assert rs == [rs[0]] + rs[1..];
  }

  /** A record of a well-timed creature fits the creature it was taken from, unless melee is pending while away. */
  lemma OwnRecordIsPlausible(id: CreatureId, c: Creature, tick: u64, c': Creature)
    requires TimedCreature(c, tick) && Persisted(c)
    requires c'.interval == c.interval && c'.cooldown == c.cooldown
    ensures Plausible(RecordOf(id, c, tick), c') <==> (c.active || c.cooldown.None?)
  {
  }

  /** Counting the remaining time from an earlier clock gives the same remaining time. */
  lemma RestoredRecord(id: CreatureId, c: Creature, tick: u64, c': Creature, tick': u64)
    requires TimedCreature(c, tick) && Persisted(c) && (c.active || c.cooldown.None?)
    requires c'.interval == c.interval && c'.cooldown == c.cooldown
    requires tick' <= tick
    ensures var restored := RestoredCreature(c', RecordOf(id, c, tick), tick');
      Persisted(restored) && RecordOf(id, restored, tick') == RecordOf(id, c, tick)
      && TimedCreature(restored, tick') && restored.target == None
  {
  }

  /** A snapshot speaks once about each persisted creature and about nobody else. */
  predicate Captures(rs: seq<Record>, cs: Registry, tick: u64) {
    && UniqueIds(rs)
    && (forall i | 0 <= i < |rs| ::
          rs[i].id in cs && Persisted(cs[rs[i].id]) && rs[i] == RecordOf(rs[i].id, cs[rs[i].id], tick))
    && forall id | id in cs && Persisted(cs[id]) :: Mentions(rs, id)
  }

  lemma SnapshotCaptures(cs: Registry, tick: u64)
    ensures Captures(Snapshot(Ids(cs), cs, tick), cs, tick) && Ordered(Snapshot(Ids(cs), cs, tick))
  {
    var ids := Ids(cs);
    SnapshotHolds(ids, cs, tick);
    SnapshotIsOrdered(ids, cs, tick);
    forall id | id in cs && Persisted(cs[id]) ensures Mentions(Snapshot(ids, cs, tick), id) {
      SnapshotMentions(ids, cs, tick, id);
    }
  }

  /** Being captured is being written. */
  lemma CapturedExactly(rs: seq<Record>, cs: Registry, tick: u64, r: Record)
    requires Captures(rs, cs, tick)
    ensures r in rs <==> r.id in cs && Persisted(cs[r.id]) && r == RecordOf(r.id, cs[r.id], tick)
  {
    if r.id in cs && Persisted(cs[r.id]) {
      assert Mentions(rs, r.id);
    }
  }

  lemma CapturedAreAcceptable(rs: seq<Record>, saved: Registry, tick: u64, booted: Registry)
    requires Captures(rs, saved, tick) && Timed(saved, tick) && SameTraits(saved, booted)
    ensures (forall i | 0 <= i < |rs| :: Acceptable(rs[i], booted)) <==> !MeleeWhileAway(saved, booted)
  {
    forall i | 0 <= i < |rs|
      ensures Acceptable(rs[i], booted)
              <==> !(Known(rs[i], booted) && !saved[rs[i].id].active && saved[rs[i].id].cooldown.Some?)
    {
      if Known(rs[i], booted) {
        OwnRecordIsPlausible(rs[i].id, saved[rs[i].id], tick, booted[rs[i].id]);
      }
    }
    if MeleeWhileAway(saved, booted) {
      var id :| id in booted && Recorded(saved, id) && !saved[id].active && saved[id].cooldown.Some?;
      assert Mentions(rs, id);
    }
  }

  lemma CapturedRestores(rs: seq<Record>, saved: Registry, tick: u64, booted: Registry, id: CreatureId)
    requires Captures(rs, saved, tick) && id in booted
    ensures Restoring(rs, booted, id) <==> Recorded(saved, id)
  {
    if Recorded(saved, id) {
      assert Mentions(rs, id);
    }
  }

  /** The checks of the prospective tiles find a conflict exactly if some recorded creature does not fit. */
  lemma CapturedFit(rs: seq<Record>, saved: Registry, tick: u64, booted: Registry, players: set<Position>)
    requires Captures(rs, saved, tick)
    ensures NoConflict(rs, booted, players) <==> Fits(saved, booted, players)
  {
    forall id | id in booted ensures Restoring(rs, booted, id) <==> Recorded(saved, id) {
      CapturedRestores(rs, saved, tick, booted, id);
    }
    if Fits(saved, booted, players) {
      FittingDoNotConflict(rs, saved, tick, booted, players);
    }
    if NoConflict(rs, booted, players) {
      ClearOfConflictFit(rs, saved, tick, booted, players);
    }
  }

  lemma FittingDoNotConflict(rs: seq<Record>, saved: Registry, tick: u64, booted: Registry, players: set<Position>)
    requires Captures(rs, saved, tick) && Fits(saved, booted, players)
    requires forall id | id in booted :: Restoring(rs, booted, id) <==> Recorded(saved, id)
    ensures NoConflict(rs, booted, players)
  {
    forall i | 0 <= i < |rs| && Places(rs[i], booted)
      ensures rs[i].position !in players && rs[i].position !in KeptTiles(rs, booted)
    {
      forall a | a in booted && booted[a].active && !Restoring(rs, booted, a) ensures booted[a].position != rs[i].position {
        assert Prospect(saved, booted, a) == Some(booted[a].position);
      }
    }
    forall i, j | 0 <= i < j < |rs| && Places(rs[i], booted) && Places(rs[j], booted)
      ensures rs[i].position != rs[j].position
    {
      assert Prospect(saved, booted, rs[i].id) == Some(rs[i].position);
    }
  }

  lemma ClearOfConflictFit(rs: seq<Record>, saved: Registry, tick: u64, booted: Registry, players: set<Position>)
    requires Captures(rs, saved, tick) && NoConflict(rs, booted, players)
    requires forall id | id in booted :: Restoring(rs, booted, id) <==> Recorded(saved, id)
    ensures Fits(saved, booted, players)
  {
    forall b | b in booted && Recorded(saved, b) && saved[b].active
      ensures saved[b].position !in players
      ensures forall a | a in booted && a != b :: Prospect(saved, booted, a) != Some(saved[b].position)
    {
      assert Mentions(rs, b);
      var i :| 0 <= i < |rs| && rs[i].id == b;
      assert Places(rs[i], booted);
      forall a | a in booted && a != b ensures Prospect(saved, booted, a) != Some(saved[b].position) {
        if Recorded(saved, a) && saved[a].active {
          assert Mentions(rs, a);
          var j :| 0 <= j < |rs| && rs[j].id == a;
          assert Places(rs[j], booted) && (i < j || j < i);
        }
      }
    }
  }

  /** What a restored world holds, creature by creature. */
  lemma RestoredMatches(rs: seq<Record>, saved: Registry, tick: u64, booted: Registry, tick': u64, id: CreatureId)
    requires Captures(rs, saved, tick) && Timed(saved, tick) && SameTraits(saved, booted)
    requires !MeleeWhileAway(saved, booted) && tick' <= tick
    requires forall i | 0 <= i < |rs| :: Acceptable(rs[i], booted)
    requires id in booted
    ensures var after := Restored(rs, booted, tick')[id];
      if Recorded(saved, id) then
        Persisted(after) && RecordOf(id, after, tick') == RecordOf(id, saved[id], tick) && after.target == None
      else after == booted[id]
  {
    RestoredAt(rs, booted, tick');
    if Recorded(saved, id) {
      assert Mentions(rs, id);
      var i :| 0 <= i < |rs| && rs[i].id == id;
      assert Known(rs[i], booted);
      RestoredRecord(id, saved[id], tick, booted[id], tick');
    }
  }

  /** The records of the next snapshot: those of the recorded creatures, and new ones of the others that are persisted. */
  predicate NextHolds(saved: Registry, tick: u64, booted: Registry, tick': u64, r: Record) {
    r.id in booted
    && if Recorded(saved, r.id) then r == RecordOf(r.id, saved[r.id], tick)
       else Persisted(booted[r.id]) && r == RecordOf(r.id, booted[r.id], tick')
  }

  lemma NextSnapshotHolds(rs: seq<Record>, saved: Registry, tick: u64, booted: Registry, tick': u64, r: Record)
    requires Captures(rs, saved, tick) && Timed(saved, tick) && SameTraits(saved, booted)
    requires !MeleeWhileAway(saved, booted) && tick' <= tick
    requires forall i | 0 <= i < |rs| :: Acceptable(rs[i], booted)
    ensures var after := Restored(rs, booted, tick');
      r in Snapshot(Ids(after), after, tick') <==> NextHolds(saved, tick, booted, tick', r)
  {
    var after := Restored(rs, booted, tick');
    SnapshotCaptures(after, tick');
    CapturedExactly(Snapshot(Ids(after), after, tick'), after, tick', r);
    if r.id in booted {
      RestoredMatches(rs, saved, tick, booted, tick', r.id);
    }
  }

  /**
   * Restart round trip, for any two worlds that agree on intervals. The booted world accepts the snapshot
   * exactly when no waiting creature that it knows declares a melee interval and every recorded creature
   * fits. It has then cleared the targets of the recorded ones. Its own next snapshot is the accepted
   * records exactly when every creature it put on the map had one, and the whole snapshot exactly when,
   * besides, there was nothing in it to skip.
   */
  lemma RestartRoundTrip(saved: Registry, tick: u64, booted: Registry, tick': u64, players: set<Position>)
    requires Timed(saved, tick) && SameTraits(saved, booted) && NobodyOnOrigin(booted) && tick' <= tick
    ensures var rs := Snapshot(Ids(saved), saved, tick);
      && (Restorable(rs, booted, players) <==> !MeleeWhileAway(saved, booted) && Fits(saved, booted, players))
      && (!MeleeWhileAway(saved, booted) ==>
            && (forall i | 0 <= i < |rs| :: Acceptable(rs[i], booted))
            && var after := Restored(rs, booted, tick');
            && (forall id | id in booted && Recorded(saved, id) :: after[id].target == None)
            && (Snapshot(Ids(after), after, tick') == KnownOf(rs, booted) <==> Resumed(saved, booted))
            && (Snapshot(Ids(after), after, tick') == rs <==> Resumed(saved, booted) && Whole(saved, booted)))
  {
    var rs := Snapshot(Ids(saved), saved, tick);
    SnapshotCaptures(saved, tick);
    CapturedAreAcceptable(rs, saved, tick, booted);
    CapturedFit(rs, saved, tick, booted, players);
    if !MeleeWhileAway(saved, booted) {
      forall id | id in booted && Recorded(saved, id) ensures Restored(rs, booted, tick')[id].target == None {
        RestoredMatches(rs, saved, tick, booted, tick', id);
      }
      NextIsWhatIsKnown(rs, saved, tick, booted, tick');
      NextIsTheSame(rs, saved, tick, booted, tick');
    }
  }

  lemma NextIsWhatIsKnown(rs: seq<Record>, saved: Registry, tick: u64, booted: Registry, tick': u64)
    requires Captures(rs, saved, tick) && Ordered(rs) && Timed(saved, tick) && SameTraits(saved, booted)
    requires !MeleeWhileAway(saved, booted) && tick' <= tick
    requires forall i | 0 <= i < |rs| :: Acceptable(rs[i], booted)
    ensures var after := Restored(rs, booted, tick');
      Snapshot(Ids(after), after, tick') == KnownOf(rs, booted) <==> Resumed(saved, booted)
  {
    var after := Restored(rs, booted, tick');
    var next, known := Snapshot(Ids(after), after, tick'), KnownOf(rs, booted);
    KnownOfHolds(rs, booted);
    forall r ensures r in next <==> NextHolds(saved, tick, booted, tick', r) {
      NextSnapshotHolds(rs, saved, tick, booted, tick', r);
    }
    forall r ensures r in known <==> r.id in booted && Recorded(saved, r.id) && r == RecordOf(r.id, saved[r.id], tick) {
      CapturedExactly(rs, saved, tick, r);
    }
    if Resumed(saved, booted) {
      SnapshotCaptures(after, tick');
      KnownOfIsOrdered(rs, booted);
      SameRecords(next, known);
    } else {
      var id :| id in booted && Persisted(booted[id]) && !Recorded(saved, id);
      var r := RecordOf(id, booted[id], tick');
      assert r in next && r !in known;
    }
  }

  lemma NextIsTheSame(rs: seq<Record>, saved: Registry, tick: u64, booted: Registry, tick': u64)
    requires Captures(rs, saved, tick) && Ordered(rs) && Timed(saved, tick) && SameTraits(saved, booted)
    requires NobodyOnOrigin(booted) && !MeleeWhileAway(saved, booted) && tick' <= tick
    requires forall i | 0 <= i < |rs| :: Acceptable(rs[i], booted)
    ensures var after := Restored(rs, booted, tick');
      Snapshot(Ids(after), after, tick') == rs <==> Resumed(saved, booted) && Whole(saved, booted)
  {
    var after := Restored(rs, booted, tick');
    var next := Snapshot(Ids(after), after, tick');
    if Resumed(saved, booted) && Whole(saved, booted) {
      NextIsWhatIsKnown(rs, saved, tick, booted, tick');
      AllKnown(rs, booted);
    }
    if next == rs {
      forall r ensures r in rs <==> NextHolds(saved, tick, booted, tick', r) {
        NextSnapshotHolds(rs, saved, tick, booted, tick', r);
      }
      forall id | id in saved && Persisted(saved[id]) ensures id in booted && saved[id].position != ORIGIN {
        var r := RecordOf(id, saved[id], tick);
        CapturedExactly(rs, saved, tick, r);
        assert NextHolds(saved, tick, booted, tick', r);
      }
      forall id | id in booted && Persisted(booted[id]) ensures Recorded(saved, id) {
        if !Recorded(saved, id) {
          var r := RecordOf(id, booted[id], tick');
          assert NextHolds(saved, tick, booted, tick', r);
          CapturedExactly(rs, saved, tick, r);
        }
      }
    }
  }

  /** In a world in order nothing is in the way, once every creature of the booted map has a record. */
  lemma OrderlyWorldsFit(saved: Registry, booted: Registry, players: set<Position>)
    requires Distinct(saved) && players !! ActiveTiles(saved) && Resumed(saved, booted)
    ensures Fits(saved, booted, players)
  {
    forall b | b in booted && Recorded(saved, b) && saved[b].active
      ensures saved[b].position !in players
      ensures forall a | a in booted && a != b :: Prospect(saved, booted, a) != Some(saved[b].position)
    {
      assert saved[b].position in ActiveTiles(saved);
      forall a | a in booted && a != b ensures Prospect(saved, booted, a) != Some(saved[b].position) {
        assert booted[a].active ==> Persisted(booted[a]);
      }
    }
  }

  /** A restore leaves the clocks in order. */
  lemma {:induction false} RestoreKeepsTimed(rs: seq<Record>, cs: Registry, tick: u64)
    requires UniqueIds(rs) && forall i | 0 <= i < |rs| :: Acceptable(rs[i], cs)
    requires Timed(cs, tick)
    ensures Timed(Restored(rs, cs, tick), tick)
  {
    RestoredAt(rs, cs, tick);
    forall id | id in cs ensures TimedCreature(Restored(rs, cs, tick)[id], tick) {
      if i :| 0 <= i < |rs| && Known(rs[i], cs) && rs[i].id == id {
        assert Acceptable(rs[i], cs);
      }
    }
  }

  /** A restore that passed its checks leaves nobody on a shared tile and nobody under a player. */
  lemma {:induction false} RestoreKeepsApart(rs: seq<Record>, cs: Registry, tick: u64, players: set<Position>)
    requires Restorable(rs, cs, players)
    requires ActiveTiles(cs) !! players
    ensures ActiveTiles(Restored(rs, cs, tick)) !! players
    ensures Distinct(cs) ==> Distinct(Restored(rs, cs, tick))
  {
    RestoredAt(rs, cs, tick);
    var after := Restored(rs, cs, tick);
    forall id | id in after && after[id].active
      ensures after[id].position !in players
      ensures PlacedBy(rs, cs, id) || (cs[id].active && after[id] == cs[id] && cs[id].position in KeptTiles(rs, cs))
    {
      if i :| 0 <= i < |rs| && Known(rs[i], cs) && rs[i].id == id {
        assert Places(rs[i], cs);
      } else {
        assert after[id] == cs[id] && cs[id].position in ActiveTiles(cs);
      }
    }
    forall a, b | Distinct(cs) && a in after && b in after && a != b && after[a].active && after[b].active
      ensures after[a].position != after[b].position
    {
      if PlacedBy(rs, cs, a) {
        var i :| 0 <= i < |rs| && Places(rs[i], cs) && rs[i].id == a;
        if PlacedBy(rs, cs, b) {
          var j :| 0 <= j < |rs| && Places(rs[j], cs) && rs[j].id == b;
          assert i < j || j < i;
        }
      } else if PlacedBy(rs, cs, b) {
        var j :| 0 <= j < |rs| && Places(rs[j], cs) && rs[j].id == b;
      }
    }
  }

  predicate PlacedBy(rs: seq<Record>, cs: Registry, id: CreatureId) {
    exists i :: 0 <= i < |rs| && Places(rs[i], cs) && rs[i].id == id
  }

  /** Creatures may differ in everything but where they are and whether they are active. */
  predicate SamePlaces(cs: Registry, cs': Registry) {
    cs.Keys == cs'.Keys
    && forall id | id in cs :: cs[id].active == cs'[id].active && cs[id].position == cs'[id].position
  }

  lemma SamePlacesSameTiles(cs: Registry, cs': Registry)
    requires SamePlaces(cs, cs')
    ensures ActiveTiles(cs) == ActiveTiles(cs')
  {
    forall p | p in ActiveTiles(cs) ensures p in ActiveTiles(cs') {
      var id :| id in cs && cs[id].active && cs[id].position == p;
      assert cs'[id].active && cs'[id].position == p;
    }
    forall p | p in ActiveTiles(cs') ensures p in ActiveTiles(cs) {
      var id :| id in cs' && cs'[id].active && cs'[id].position == p;
      assert cs[id].active && cs[id].position == p;
    }
  }
}
