/** Bringing inactive static creatures back: the unconditional reset and the timed reactivation. */
module Respawn {
  import opened Prelude
  import opened Geometry
  import opened Creatures
  import opened Restart

  /** The registry, the picture of taken tiles and the three counters of one pass. */
  datatype Pass = Pass(cs: Registry, taken: set<Position>, reactivated: nat, byPlayer: nat, byCreature: nat)

  /** What a pass consults: player tiles, the clock, and whether it serves due creatures only. */
  datatype Call = Call(players: set<Position>, tick: u64, dueOnly: bool)

  function Awake(c: Creature, tick: u64): Creature {
    c.(position := c.spawn, health := c.fullHealth, active := true,
       activatedAt := tick, inactiveSince := None, due := None)
  }

  /** A blocked due creature waits one more full interval; a blocked reset leaves it alone. */
  function Deferred(c: Creature, call: Call): Creature {
    if call.dueOnly then c.(due := Some(SatAdd(call.tick, c.interval))) else c
  }

  predicate Attempted(c: Creature, call: Call) {
    !c.active && (call.dueOnly ==> c.due.Some? && c.due.value <= call.tick)
  }

  /** The timed pass also respects the spawn area; the reset looks at the spawn tile only. */
  predicate PlayerBlocks(c: Creature, call: Call) {
    c.spawn in call.players
    || (call.dueOnly && c.area.Some? && exists p | p in call.players :: Inside(c.area.value, p))
  }

  function Visit(w: Pass, id: CreatureId, call: Call): (w': Pass)
    requires id in w.cs
    ensures w'.cs.Keys == w.cs.Keys
  {
    var c := w.cs[id];
    if !Attempted(c, call) then w
    else if PlayerBlocks(c, call) then w.(cs := w.cs[id := Deferred(c, call)], byPlayer := w.byPlayer + 1)
    else if c.spawn in w.taken then w.(cs := w.cs[id := Deferred(c, call)], byCreature := w.byCreature + 1)
    else w.(cs := w.cs[id := Awake(c, call.tick)], taken := w.taken + {c.spawn}, reactivated := w.reactivated + 1)
  }

  function VisitAll(w: Pass, ids: seq<CreatureId>, call: Call): (w': Pass)
    requires forall id | id in ids :: id in w.cs
    ensures w'.cs.Keys == w.cs.Keys
    decreases |ids|
  {
    if ids == [] then w else VisitAll(Visit(w, ids[0], call), ids[1..], call)
  }

  /** The picture is right, nobody shares a tile, and no player stands on a creature. */
  predicate Orderly(w: Pass, players: set<Position>) {
    && w.taken == ActiveTiles(w.cs)
    && players !! w.taken
  }

  lemma VisitIsOrderly(w: Pass, id: CreatureId, call: Call)
    requires id in w.cs && Orderly(w, call.players)
    ensures Orderly(Visit(w, id, call), call.players)
    ensures Distinct(w.cs) ==> Distinct(Visit(w, id, call).cs)
    ensures w.taken <= Visit(w, id, call).taken
  {
    var c, w' := w.cs[id], Visit(w, id, call);
    if Attempted(c, call) {
      var now := w'.cs[id];
      var arrived := if now.active then {now.position} else {};
      forall p | p in ActiveTiles(w.cs) + arrived ensures p in ActiveTiles(w'.cs) {
        if p in ActiveTiles(w.cs) {
          var other :| other in w.cs && w.cs[other].active && w.cs[other].position == p;
          assert w'.cs[other] == w.cs[other];
        } else {
          assert w'.cs[id].position == p;
        }
      }
      forall p | p in ActiveTiles(w'.cs) ensures p in ActiveTiles(w.cs) + arrived {
        var other :| other in w'.cs && w'.cs[other].active && w'.cs[other].position == p;
        assert other == id || w'.cs[other] == w.cs[other];
      }
      if now.active {
        forall other | other in w.cs && w.cs[other].active ensures w.cs[other].position != c.spawn {
          assert w.cs[other].position in ActiveTiles(w.cs);
        }
      }
    }
  }

  lemma {:induction false} VisitAllIsOrderly(w: Pass, ids: seq<CreatureId>, call: Call)
    requires forall id | id in ids :: id in w.cs
    requires Orderly(w, call.players)
    ensures Orderly(VisitAll(w, ids, call), call.players)
    ensures Distinct(w.cs) ==> Distinct(VisitAll(w, ids, call).cs)
    ensures w.taken <= VisitAll(w, ids, call).taken
    decreases |ids|
  {
    if ids != [] {
      VisitIsOrderly(w, ids[0], call);
      VisitAllIsOrderly(Visit(w, ids[0], call), ids[1..], call);
    }
  }

  /** What became of a creature in a finished pass. */
  predicate Served(before: Creature, after: Creature, taken: set<Position>, call: Call) {
    if !Attempted(before, call) then after == before
    else if PlayerBlocks(before, call) then after == Deferred(before, call)
    else after == Awake(before, call.tick) || (after == Deferred(before, call) && before.spawn in taken)
  }

  predicate ServedAll(w: Pass, w': Pass, ids: seq<CreatureId>, call: Call)
    requires w'.cs.Keys == w.cs.Keys
  {
    forall id | id in w.cs ::
      if id in ids then Served(w.cs[id], w'.cs[id], w'.taken, call) else w'.cs[id] == w.cs[id]
  }

  function Handled(w: Pass): nat {
    w.reactivated + w.byPlayer + w.byCreature
  }

  lemma VisitServesOne(w: Pass, id: CreatureId, call: Call)
    requires id in w.cs && Orderly(w, call.players)
    ensures var w' := Visit(w, id, call);
      && ServedAll(w, w', [id], call)
      && Handled(w') == Handled(w) + if Attempted(w.cs[id], call) then 1 else 0
  {
  }

  lemma ServedInTurn(w: Pass, mid: Pass, last: Pass, ids: seq<CreatureId>, call: Call)
    requires ids != [] && NoRepeats(ids)
    requires w.cs.Keys == mid.cs.Keys == last.cs.Keys && mid.taken <= last.taken
    requires ServedAll(w, mid, [ids[0]], call) && ServedAll(mid, last, ids[1..], call)
    ensures ServedAll(w, last, ids, call)
  {
    TailNoRepeats(ids);
  }

  /**
   * A pass is complete: whoever is due and unblocked stands at its spawn again, everyone else keeps
   * its state or its re-armed deadline, and a creature stays away only if a player or an active
   * creature holds its spawn. The three counters account for every attempt.
   */
  lemma {:induction false} PassServesEveryone(w: Pass, ids: seq<CreatureId>, call: Call)
    requires NoRepeats(ids) && forall id | id in ids :: id in w.cs
    requires Orderly(w, call.players)
    ensures ServedAll(w, VisitAll(w, ids, call), ids, call)
    ensures Handled(VisitAll(w, ids, call)) == Handled(w) + CountAttempts(w.cs, ids, call)
    decreases |ids|
  {
    if ids != [] {
      var next := Visit(w, ids[0], call);
      TailNoRepeats(ids);
      VisitServesOne(w, ids[0], call);
      VisitIsOrderly(w, ids[0], call);
      PassServesEveryone(next, ids[1..], call);
      VisitAllIsOrderly(next, ids[1..], call);
      ServedInTurn(w, next, VisitAll(w, ids, call), ids, call);
      CountReadsItsIdsOnly(w.cs, next.cs, ids[1..], call);
    }
  }

  function CountAttempts(cs: Registry, ids: seq<CreatureId>, call: Call): nat
    requires forall id | id in ids :: id in cs
  {
    if ids == [] then 0
    else (if Attempted(cs[ids[0]], call) then 1 else 0) + CountAttempts(cs, ids[1..], call)
  }

  lemma {:induction false} CountReadsItsIdsOnly(cs: Registry, cs': Registry, ids: seq<CreatureId>, call: Call)
    requires forall id | id in ids :: id in cs && id in cs' && cs[id] == cs'[id]
    ensures CountAttempts(cs, ids, call) == CountAttempts(cs', ids, call)
  {
    if ids != [] {
      CountReadsItsIdsOnly(cs, cs', ids[1..], call);
    }
  }

  lemma VisitKeepsTimed(w: Pass, id: CreatureId, call: Call)
    requires id in w.cs && Timed(w.cs, call.tick)
    ensures Timed(Visit(w, id, call).cs, call.tick)
  {
    assert TimedCreature(w.cs[id], call.tick);
  }

  lemma {:induction false} VisitAllKeepsTimed(w: Pass, ids: seq<CreatureId>, call: Call)
    requires forall id | id in ids :: id in w.cs
    requires Timed(w.cs, call.tick)
    ensures Timed(VisitAll(w, ids, call).cs, call.tick)
    decreases |ids|
  {
    if ids != [] {
      VisitKeepsTimed(w, ids[0], call);
      VisitAllKeepsTimed(Visit(w, ids[0], call), ids[1..], call);
    }
  }

  /** A finished sweep over the whole registry, and what it means for every creature. */
  ghost predicate Swept(start: Pass, end: Pass, call: Call) {
    && end == VisitAll(start, Ids(start.cs), call)
    && ServedAll(start, end, Ids(start.cs), call)
    && Handled(end) == Handled(start) + CountAttempts(start.cs, Ids(start.cs), call)
  }

  lemma SweepIsRight(start: Pass, call: Call)
    requires Orderly(start, call.players) && Timed(start.cs, call.tick)
    ensures var end := VisitAll(start, Ids(start.cs), call);
      && Swept(start, end, call)
      && Orderly(end, call.players) && Timed(end.cs, call.tick)
      && (Distinct(start.cs) ==> Distinct(end.cs))
  {
    var ids := Ids(start.cs);
    VisitAllIsOrderly(start, ids, call);
    VisitAllKeepsTimed(start, ids, call);
    PassServesEveryone(start, ids, call);
  }
}
