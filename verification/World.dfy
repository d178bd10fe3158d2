/**
 * The authoritative world: static creatures with their cached occupancy, and the players that move
 * among them. Every command keeps `Valid()`.
 */
module Worlds {
  import opened Prelude
  import opened Geometry
  import opened Creatures
  import opened Respawn
  import opened Restart
  import opened Follow
  import opened WorldRules
  import Detour

  class World {
    var players: Crowd
    var lifecycles: map<PlayerId, Lifecycle>
    var follows: map<PlayerId, PlayerId>
    var creatures: Registry
    var occupied: set<Position>
    var tick: u64

    /** What every command keeps. */
    ghost predicate Valid()
      reads this
    {
      && occupied == ActiveTiles(creatures)
      && PlayerTiles(players) !! occupied
      && Timed(creatures, tick)
      && InStep(players, lifecycles, follows)
    }

    constructor ()
      ensures Valid() && Distinct(creatures)
      ensures players == map[] && creatures == map[] && tick == 0
    {
      players, lifecycles, follows := map[], map[], map[];
      creatures, occupied, tick := map[], {}, 0;
    }

    /** Recomputes the cached index. */
    method RefreshOccupancy()
      modifies this`occupied
      ensures occupied == ActiveTiles(creatures)
    {
      occupied := set id | id in creatures && creatures[id].active :: creatures[id].position;
    }

    /** Builds the registry of a collection, entity by entity, without installing it. */
    method Collect(es: seq<Listing>) returns (r: Result<Registry>)
      ensures r.Ok? <==> Installable(es, PlayerTiles(players))
      ensures r.Ok? ==> r.value == Catalogued(es, tick)
    {
      if |es| > MAX_STATIC_SPAWNS {
        return Err;
      }
      var installed: Registry := map[];
      for i := 0 to |es|
        invariant installed == Catalogued(es[..i], tick)
        invariant UniqueListings(es[..i])
        invariant forall j | 0 <= j < i :: !Blank(es[j].name) && es[j].position !in PlayerTiles(players)
      {
        CataloguedStep(es, i, tick);
        var e := es[i];
        if Blank(e.name) || e.id in installed {
          return Err;
        }
        installed := installed[e.id := Installed(e, tick)];
        if e.position in PlayerTiles(players) {
          return Err;
        }
      }
      assert es[..|es|] == es;
      return Ok(installed);
    }

    /** Replaces the registry by a whole collection, or changes nothing. */
    method Install(es: seq<Listing>) returns (r: Result<()>)
      requires Valid()
      modifies this`creatures, this`occupied
      ensures Valid()
      ensures r.Ok? <==> Installable(es, PlayerTiles(players))
      ensures r.Ok? ==> creatures == Catalogued(es, tick) && (Distinct(creatures) <==> DistinctlyPlaced(es))
      ensures r.Err? ==> unchanged(this)
    {
      var collected := Collect(es);
      if collected.Err? {
        return Err;
      }
      InstallIsOrderly(es, tick, PlayerTiles(players));
      InstallPlacesApart(es, tick);
      creatures := collected.value;
      RefreshOccupancy();
      return Ok(());
    }

    /** One cardinal step of a creature, refused without effect if the tile is not free. */
    method MoveCreature(id: CreatureId, d: Direction, walkable: set<Position>) returns (r: Result<(Position, Position)>)
      requires Valid()
      modifies this`creatures, this`occupied
      ensures Valid()
      ensures match Moved(old(creatures), Ground(walkable, PlayerTiles(players)), id, d)
              case Err => r.Err? && unchanged(this)
              case Ok(cs) => creatures == cs && r == Ok((old(creatures)[id].position, cs[id].position))
      ensures old(Distinct(creatures)) ==> Distinct(creatures)
    {
      if id !in creatures || !creatures[id].active {
        return Err;
      }
      var from := creatures[id].position;
      var to := Step(from, d);
      if to.Err? || to.value !in walkable || (exists p | p in players :: players[p] == to.value) {
        return Err;
      }
      if exists other | other in creatures :: other != id && creatures[other].active && creatures[other].position == to.value {
        return Err;
      }
      ghost var after := creatures[id := creatures[id].(position := to.value)];
      assert to.value !in PlayerTiles(players) && to.value !in OtherTiles(creatures, id);
      assert Moved(creatures, Ground(walkable, PlayerTiles(players)), id, d) == Ok(after);
      UpdateIsOrderly(creatures, id, creatures[id].(position := to.value), PlayerTiles(players), tick);
      creatures := creatures[id := creatures[id].(position := to.value)];
      RefreshOccupancy();
      return Ok((from, to.value));
    }

    // ----- batches -----

    /** Plans one safe step for every active creature without moving any. */
    method Plan(walkable: set<Position>) returns (b: Batch)
      ensures b == Planned(Ids(creatures), creatures, occupied, Ground(walkable, PlayerTiles(players)), tick)
      ensures Distinct(creatures) && occupied == ActiveTiles(creatures) ==>
        AllDecided(b.decisions, Ids(creatures), creatures, Ground(walkable, PlayerTiles(players)), tick)
    {
      var standing := PlayerTiles(players);
      ghost var g := Ground(walkable, standing);
      var taken := occupied;
      var ids := CreatureIds();
      b := Batch([], 0);
      ghost var whole := Planned(ids, creatures, taken, g, tick);
      assert ids[0..] == ids;
      assert [] + whole.decisions == whole.decisions;
      for i := 0 to |ids|
        invariant Extends(b, Planned(ids[i..], creatures, taken, g, tick)) == whole
      {
        PlannedInTurn(ids, i, creatures, taken, g, tick, b);
        var one;
        one, taken := PlanTurn(ids[i], walkable, standing, taken);
        b := Extends(b, one);
      }
      assert ids[|ids|..] == [] && b.decisions + [] == b.decisions;
      if Distinct(creatures) && occupied == ActiveTiles(creatures) {
        PlanDecidesAll(ids, creatures, g, tick);
      }
    }

    /** The registry's keys in the order they are visited. */
    method CreatureIds() returns (ids: seq<CreatureId>)
      ensures ids == Ids(creatures)
    {
      ids := VisitOrder(creatures.Keys);
    }

    /** The planner's turn for one creature: its part of the batch and the picture after it. */
    method PlanTurn(id: CreatureId, walkable: set<Position>, standing: set<Position>, taken: set<Position>)
      returns (one: Batch, taken': set<Position>)
      requires id in creatures
      ensures (one, taken') == PlanOne(id, creatures[id], taken, Ground(walkable, standing), tick)
    {
      if !creatures[id].active {
        return Batch([], 0), taken;
      }
      var source := creatures[id].position;
      taken' := taken - {source};
      var selected := Select(source, id + tick, walkable, standing, taken');
      if selected.Some? {
        taken' := taken' + {Step(source, selected.value).value};
        one := Batch([Decision(id, selected.value)], 0);
      } else {
        taken' := taken' + {source};
        one := Batch([], 1);
      }
    }

    /** The planner's direction scan. */
    method Select(source: Position, seed: nat, walkable: set<Position>, standing: set<Position>, taken: set<Position>)
      returns (selected: Option<Direction>)
      ensures selected == Pick(source, seed, Ground(walkable, standing), taken)
    {
      var offset := seed % 4;
      ghost var ds := Rotated(seed);
      RotatedAt(seed, 0);
      for tried := 0 to 4
        invariant FirstFree(source, ds[tried..], walkable, standing + taken)
               == FirstFree(source, ds, walkable, standing + taken)
      {
        var d := DIRECTIONS[(offset + tried) % 4];
        RotatedAt(seed, tried);
        assert ds[tried..][0] == d && ds[tried..][1..] == ds[tried + 1..];
        var to := Step(source, d);
        if to.Ok? && to.value in walkable && to.value !in standing && to.value !in taken {
          return Some(d);
        }
      }
      return None;
    }

    /**
     * Plans and carries out a batch. With creatures on distinct tiles it never fails, ends in the
     * serial reference state, and every creature is decided, skipped or inactive.
     */
    method ApplyPolicy(enabled: bool, walkable: set<Position>) returns (r: Result<Batch>)
      requires Valid()
      modifies this`creatures, this`occupied
      ensures Valid()
      ensures old(Distinct(creatures)) ==>
        var g, ids := Ground(walkable, PlayerTiles(players)), Ids(old(creatures));
        && r.Ok? && Distinct(creatures)
        && (enabled ==>
              && creatures == Serial(ids, old(creatures), g, tick)
              && |r.value.decisions| + r.value.skipped == CountActive(ids, old(creatures))
              && Executed(old(creatures), g, r.value.decisions) == Ok(creatures) && OneEach(r.value.decisions)
              && AllDecided(r.value.decisions, ids, old(creatures), g, tick))
        && (!enabled ==> r.value == Batch([], 0) && creatures == old(creatures))
      ensures Carried(old(creatures), creatures, walkable, {})
    {
      if !enabled {
        return Ok(Batch([], 0));
      }
      ghost var g, ids := Ground(walkable, PlayerTiles(players)), Ids(creatures);
      var batch := Plan(walkable);
      if Distinct(creatures) {
        PlanIsSerial(ids, creatures, g, tick);
        DecisionsFollowIds(ids, creatures, occupied, g, tick);
      }
      var done := Execute(batch.decisions, walkable);
      return if done then Ok(batch) else Err;
    }

    /** Carries out decisions in order, stopping at the first that fails. */
    method Execute(ds: seq<Decision>, walkable: set<Position>) returns (done: bool)
      requires Valid()
      modifies this`creatures, this`occupied
      ensures Valid()
      ensures old(Distinct(creatures)) ==> Distinct(creatures)
      ensures done <==> Executed(old(creatures), Ground(walkable, PlayerTiles(players)), ds).Ok?
      ensures done ==> Executed(old(creatures), Ground(walkable, PlayerTiles(players)), ds) == Ok(creatures)
      ensures Carried(old(creatures), creatures, walkable, {})
    {
      ghost var g := Ground(walkable, PlayerTiles(players));
      assert ds[0..] == ds;
      for i := 0 to |ds|
        invariant Valid() && (old(Distinct(creatures)) ==> Distinct(creatures))
        invariant Executed(creatures, g, ds[i..]) == Executed(old(creatures), g, ds)
        invariant Carried(old(creatures), creatures, walkable, {})
      {
        assert ds[i..][0] == ds[i] && ds[i..][1..] == ds[i + 1..];
        StepIsCarriedOn(old(creatures), creatures, g, ds[i].id, ds[i].direction);
        var moved := MoveCreature(ds[i].id, ds[i].direction, walkable);
        if moved.Err? {
          return false;
        }
      }
      assert ds[|ds|..] == [];
      return true;
    }

    // ----- summons, activity, respawn -----

    /** Summons a copy of an installed creature near a tile: the first free one of nine. */
    method SpawnDynamic(name: string, at: Position)
      returns (r: Result<CreatureId>, ghost template: CreatureId, ghost k: nat)
      requires Valid()
      modifies this`creatures, this`occupied
      ensures Valid()
      ensures old(Distinct(creatures)) ==> Distinct(creatures)
      ensures r.Ok? <==> CanSummon(old(creatures), players, Fold(name), at)
      ensures r.Ok? ==>
        && SummonPlan(old(creatures), players, Fold(name), at, template, k, r.value)
        && creatures == old(creatures)[r.value := Summoned(old(creatures)[template], Around(at, k), tick)]
      ensures r.Err? ==> unchanged(this)
    {
      var plan := PlanSummon(Fold(name), at);
      template, k := 0, 0;
      if plan.Err? {
        return Err, template, k;
      }
      var (chosen, near, id) := plan.value;
      template, k := chosen, near;
      Materialize(id, Summoned(creatures[chosen], Around(at, near), tick));
      r := Ok(id);
    }

    /** Puts an active creature on a free tile, under an unused identifier. */
    method Materialize(id: CreatureId, c: Creature)
      requires Valid() && id !in creatures && c.active && c.due.None?
      requires TimedCreature(c, tick) && Vacant(creatures, players, c.position)
      modifies this`creatures, this`occupied
      ensures Valid()
      ensures old(Distinct(creatures)) ==> Distinct(creatures)
      ensures creatures == old(creatures)[id := c]
    {
      UpdateIsOrderly(creatures, id, c, PlayerTiles(players), tick);
      creatures := creatures[id := c];
      RefreshOccupancy();
    }

    /** Everything a summon needs before it happens: template, tile and identifier. */
    method PlanSummon(folded: string, at: Position) returns (r: Result<(CreatureId, nat, CreatureId)>)
      ensures r.Ok? <==> CanSummon(creatures, players, folded, at)
      ensures r.Ok? ==> var (template, k, id) := r.value; SummonPlan(creatures, players, folded, at, template, k, id)
    {
      if |creatures| >= MAX_STATIC_SPAWNS || folded == [] {
        return Err;
      }
      var ids := CreatureIds();
      var template := FindTemplate(ids, folded);
      if template.None? {
        return Err;
      }
      var k := FindVacancy(at);
      if k.None? {
        return Err;
      }
      var id := FindUnused();
      r := Ok((template.value, k.value, id));
    }

    method FindTemplate(ids: seq<CreatureId>, folded: string) returns (r: Option<CreatureId>)
      requires ids == Ids(creatures)
      ensures r.Some? ==> FirstNamed(creatures, folded, r.value)
      ensures r.None? ==> forall id | id in creatures :: Lower(creatures[id].name) != folded
    {
      for i := 0 to |ids|
        invariant forall j | 0 <= j < i :: Lower(creatures[ids[j]].name) != folded
      {
        if Lower(creatures[ids[i]].name) == folded {
          return Some(ids[i]);
        }
      }
      return None;
    }

    method FindVacancy(at: Position) returns (r: Option<nat>)
      ensures r.Some? ==> FirstVacant(creatures, players, at, r.value)
      ensures r.None? ==> forall k | 0 <= k < 9 :: !Vacant(creatures, players, Around(at, k))
    {
      for k := 0 to 9
        invariant forall j | 0 <= j < k :: !Vacant(creatures, players, Around(at, j))
      {
        if Vacant(creatures, players, Around(at, k)) {
          return Some(k);
        }
      }
      return None;
    }

    method FindUnused() returns (id: CreatureId)
      requires |creatures| < MAX_STATIC_SPAWNS
      ensures LeastUnused(creatures, id)
    {
      ghost var count := |creatures.Keys|;
      assert count == |creatures|;
      for next := DYNAMIC_ID_BASE to DYNAMIC_ID_BASE + |creatures| + 1
        invariant forall i | DYNAMIC_ID_BASE <= i < next :: i in creatures.Keys
      {
        if next !in creatures {
          return next;
        }
      }
      RunFits(DYNAMIC_ID_BASE, count + 1, creatures.Keys);
      assert false;
    }

    /** Removes a summon; imported creatures are protected. */
    method DespawnDynamic(id: CreatureId) returns (r: Result<()>)
      requires Valid()
      modifies this`creatures, this`occupied
      ensures Valid()
      ensures old(Distinct(creatures)) ==> Distinct(creatures)
      ensures r.Ok? <==> id >= DYNAMIC_ID_BASE && id in old(creatures)
      ensures creatures == if r.Ok? then old(creatures) - {id} else old(creatures)
    {
      if id < DYNAMIC_ID_BASE || id !in creatures {
        return Err;
      }
      creatures := creatures - {id};
      RefreshOccupancy();
      return Ok(());
    }

    /** Takes a creature off the map in place and schedules its return. */
    method Deactivate(id: CreatureId) returns (r: Result<bool>)
      requires Valid()
      modifies this`creatures, this`occupied
      ensures Valid()
      ensures old(Distinct(creatures)) ==> Distinct(creatures)
      ensures r == if id in old(creatures) then Ok(old(creatures)[id].active) else Err
      ensures creatures == if id in old(creatures) then old(creatures)[id := PutAway(old(creatures)[id], tick)]
                           else old(creatures)
    {
      if id !in creatures {
        return Err;
      }
      var changed := creatures[id].active;
      UpdateIsOrderly(creatures, id, PutAway(creatures[id], tick), PlayerTiles(players), tick);
      creatures := creatures[id := PutAway(creatures[id], tick)];
      RefreshOccupancy();
      return Ok(changed);
    }

    /** Sets the display health of an active creature. */
    method SetHealth(id: CreatureId, health: u8) returns (r: Result<bool>)
      requires Valid()
      modifies this`creatures
      ensures Valid()
      ensures old(Distinct(creatures)) ==> Distinct(creatures)
      ensures r.Ok? <==> health <= 100 && id in old(creatures) && old(creatures)[id].active
      ensures r.Ok? ==> r.value == (old(creatures)[id].health != health)
                        && creatures == old(creatures)[id := old(creatures)[id].(health := health)]
      ensures r.Err? ==> unchanged(this)
    {
      if health > 100 || id !in creatures || !creatures[id].active {
        return Err;
      }
      var changed := creatures[id].health != health;
      SameTiles(creatures, id, creatures[id].(health := health));
      creatures := creatures[id := creatures[id].(health := health)];
      return Ok(changed);
    }

    /** One creature's turn in a pass. */
    method SweepTurn(w: Pass, id: CreatureId, standing: set<Position>, dueOnly: bool) returns (w': Pass)
      requires w.cs == creatures && id in creatures
      modifies this`creatures
      ensures w' == Visit(w, id, Call(standing, tick, dueOnly)) && w'.cs == creatures
    {
      var c := creatures[id];
      if c.active || (dueOnly && (c.due.None? || tick < c.due.value)) {
        return w;
      }
      var later := if dueOnly then c.(due := Some(SatAdd(tick, c.interval))) else c;
      if c.spawn in standing || (dueOnly && c.area.Some? && exists p | p in standing :: Inside(c.area.value, p)) {
        creatures := creatures[id := later];
        return w.(cs := creatures, byPlayer := w.byPlayer + 1);
      }
      if c.spawn in w.taken {
        creatures := creatures[id := later];
        return w.(cs := creatures, byCreature := w.byCreature + 1);
      }
      creatures := creatures[id := c.(position := c.spawn, health := c.fullHealth, active := true, activatedAt := tick,
                                     inactiveSince := None, due := None)];
      return w.(cs := creatures, taken := w.taken + {c.spawn}, reactivated := w.reactivated + 1);
    }

    /** The loop of a pass, on the registry and a picture of the taken tiles. */
    method SweepLoop(standing: set<Position>, dueOnly: bool) returns (end: Pass)
      modifies this`creatures
      ensures end == VisitAll(Pass(old(creatures), occupied, 0, 0, 0), Ids(old(creatures)), Call(standing, tick, dueOnly))
      ensures creatures == end.cs
    {
      var ids := CreatureIds();
      ghost var call := Call(standing, tick, dueOnly);
      ghost var goal := VisitAll(Pass(creatures, occupied, 0, 0, 0), ids, call);
      end := Pass(creatures, occupied, 0, 0, 0);
      assert ids[0..] == ids;
      for i := 0 to |ids|
        invariant creatures == end.cs && end.cs.Keys == goal.cs.Keys
        invariant VisitAll(end, ids[i..], call) == goal
      {
        assert ids[i..][0] == ids[i] && ids[i..][1..] == ids[i + 1..];
        end := SweepTurn(end, ids[i], standing, dueOnly);
      }
      assert ids[|ids|..] == [];
    }

    /**
     * One pass over the inactive creatures. With `dueOnly` it serves those whose deadline has come
     * (and re-arms the blocked ones); without, every inactive creature.
     */
    method Sweep(dueOnly: bool) returns (end: Pass)
      requires Valid()
      modifies this`creatures, this`occupied
      ensures Valid()
      ensures old(Distinct(creatures)) ==> Distinct(creatures)
      ensures end.cs == creatures && end.taken == occupied
      ensures Swept(Pass(old(creatures), old(occupied), 0, 0, 0), end, Call(PlayerTiles(players), tick, dueOnly))
    {
      ghost var start, call := Pass(creatures, occupied, 0, 0, 0), Call(PlayerTiles(players), tick, dueOnly);
      ghost var goal := VisitAll(start, Ids(start.cs), call);
      SweepIsRight(start, call);
      end := SweepLoop(PlayerTiles(players), dueOnly);
      assert end == goal && creatures == goal.cs;
      RefreshOccupancy();
      assert occupied == goal.taken;
    }

    // ----- targets -----

    /** Picks the nearest living player in range as target; equal distances go to the lower id. */
    method SelectTarget(id: CreatureId, range: u8) returns (r: Result<Option<PlayerId>>)
      requires Valid()
      modifies this`creatures
      ensures Valid()
      ensures old(Distinct(creatures)) ==> Distinct(creatures)
      ensures r.Ok? <==> 0 < range <= MAX_TARGET_RANGE && id in old(creatures) && old(creatures)[id].active
      ensures r.Ok? ==>
        && creatures == old(creatures)[id := old(creatures)[id].(target := r.value)]
        && (if old(creatures)[id].isNpc then r.value == None
            else IsNearest(players, lifecycles, old(creatures)[id].position, range, r.value))
      ensures r.Err? ==> unchanged(this)
    {
      if range == 0 || range > MAX_TARGET_RANGE || id !in creatures || !creatures[id].active {
        return Err;
      }
      var target: Option<PlayerId> := None;
      if !creatures[id].isNpc {
        target := FindNearest(creatures[id].position, range);
      }
      SameTiles(creatures, id, creatures[id].(target := target));
      creatures := creatures[id := creatures[id].(target := target)];
      return Ok(target);
    }

    method FindNearest(from: Position, range: u8) returns (best: Option<PlayerId>)
      requires lifecycles.Keys == players.Keys
      ensures IsNearest(players, lifecycles, from, range, best)
    {
      var ids := PlayerIds();
      best := None;
      for i := 0 to |ids|
        invariant best.Some? ==> best.value in players && InRange(players, lifecycles, from, range, best.value)
        invariant forall j | 0 <= j < i && InRange(players, lifecycles, from, range, ids[j]) ::
                    best.Some? && Closer(players, from, best.value, ids[j])
        invariant best.Some? ==> exists j :: 0 <= j < i && ids[j] == best.value
      {
        var p := ids[i];
        if InRange(players, lifecycles, from, range, p)
           && (best.None? || Chebyshev(players[p], from) < Chebyshev(players[best.value], from)) {
          best := Some(p);
        }
      }
    }

    /** The players in the order of their ids. */
    method PlayerIds() returns (ids: seq<PlayerId>)
      ensures ids == PlayerOrder(players)
    {
      ids := VisitOrder(players.Keys);
    }

    /**
     * One step towards the chosen target: straight if a tile on the way is free, otherwise the first
     * step of a shortest detour within the budget. A step that was found cannot fail.
     */
    method StepToward(id: CreatureId, walkable: set<Position>, maxDetour: u8) returns (r: Result<StepOutcome>)
      requires Valid()
      modifies this`creatures, this`occupied
      ensures Valid()
      ensures old(Distinct(creatures)) ==> Distinct(creatures)
      ensures r.Ok? <==> id in old(creatures) && old(creatures)[id].active
      ensures r.Err? ==> unchanged(this)
      ensures r.Ok? ==> RightStep(old(creatures), creatures, players, lifecycles, id, walkable, maxDetour, r.value)
    {
      if id !in creatures || !creatures[id].active {
        return Err;
      }
      var c := creatures[id];
      var source := c.position;
      if c.isNpc || c.target.None? || c.target.value !in players || lifecycles[c.target.value].dead {
        SameTiles(creatures, id, c.(target := None));
        creatures := creatures[id := c.(target := None)];
        return Ok(NoTarget);
      }
      var target := players[c.target.value];
      if Adjacent(source, target) {
        return Ok(AlreadyAdjacent);
      }
      if source.z != target.z {
        return Ok(Blocked);
      }
      var direct := TryDirect(id, walkable, Toward(source, target));
      TowardMeans(source, target, Ground(walkable, PlayerTiles(players)), OtherTiles(creatures, id));
      if direct.Some? {
        var moved := MoveCreature(id, direct.value, walkable);
        return Ok(Moving(direct.value, moved.value.0, moved.value.1));
      }
      var detour := Detour.DetourDirection(source, target, walkable, occupied, PlayerTiles(players), maxDetour);
      if detour.None? {
        return Ok(Blocked);
      }
      DetourStepIsFree(creatures, id, walkable, PlayerTiles(players), target, maxDetour, detour.value);
      var moved := MoveCreature(id, detour.value, walkable);
      return Ok(Moving(detour.value, moved.value.0, moved.value.1));
    }

    /** The first preferred direction whose tile is free. */
    method TryDirect(id: CreatureId, walkable: set<Position>, ds: seq<Direction>) returns (r: Option<Direction>)
      requires id in creatures
      ensures r == FirstFree(creatures[id].position, ds, walkable, PlayerTiles(players) + OtherTiles(creatures, id))
    {
      var source := creatures[id].position;
      ghost var taken := PlayerTiles(players) + OtherTiles(creatures, id);
      assert ds[0..] == ds;
      for i := 0 to |ds|
        invariant FirstFree(source, ds[i..], walkable, taken) == FirstFree(source, ds, walkable, taken)
      {
        assert ds[i..][0] == ds[i] && ds[i..][1..] == ds[i + 1..];
        var to := Step(source, ds[i]);
        if to.Ok? && to.value in walkable && (forall p | p in players :: players[p] != to.value)
           && (forall other | other in creatures ::
                 other == id || !creatures[other].active || creatures[other].position != to.value) {
          return Some(ds[i]);
        }
      }
      return None;
    }

    /**
     * A creature's attack turn: cooldown, target upkeep, the damage cycle, and the death of the target
     * where the hit is lethal. A lethal hit on a player without a temple is the one failure that
     * leaves a trace.
     */
    method Strike(id: CreatureId, fate: Fate) returns (r: Result<()>)
      requires Valid()
      modifies this`creatures, this`lifecycles, this`follows
      ensures Valid()
      ensures old(Distinct(creatures)) ==> Distinct(creatures)
      ensures id !in old(creatures) || !old(creatures)[id].active ==> r.Err? && unchanged(this)
      ensures id in old(creatures) && old(creatures)[id].active ==>
        var c, hits := old(creatures)[id], Hits(old(creatures)[id], players, old(lifecycles), tick);
        && (r.Err? <==> hits && fate.Homeless?)
        && creatures == old(creatures)[id := Struck(c, players, old(lifecycles), tick, fate)]
        && (if hits && fate.Dies?
            then lifecycles == old(lifecycles)[c.target.value := Lifecycle(true, Some(fate.temple), Some(tick), false)]
                 && follows == WithoutReferences(old(follows), c.target.value)
            else lifecycles == old(lifecycles) && follows == old(follows))
    {
      if id !in creatures || !creatures[id].active {
        return Err;
      }
      var c := creatures[id];
      var hits := Hits(c, players, lifecycles, tick);
      SameTiles(creatures, id, Struck(c, players, lifecycles, tick, fate));
      creatures := creatures[id := Struck(c, players, lifecycles, tick, fate)];
      if !hits || fate.Survives? {
        return Ok(());
      }
      if fate.Homeless? {
        return Err;
      }
      var died := Die(c.target.value, Some(fate.temple));
      return Ok(());
    }

    /** A player's blow against an adjacent monster; `ready` says that his own cooldown is over. */
    method HitCreature(attacker: PlayerId, id: CreatureId, damage: u16, ready: bool) returns (r: Result<u8>)
      requires Valid()
      modifies this`creatures, this`occupied
      ensures Valid()
      ensures old(Distinct(creatures)) ==> Distinct(creatures)
      ensures r.Ok? <==>
        && damage > 0 && attacker in players && id in old(creatures) && old(creatures)[id].active
        && !old(creatures)[id].isNpc && Adjacent(players[attacker], old(creatures)[id].position) && ready
      ensures r.Ok? ==>
        && creatures == old(creatures)[id := Wounded(old(creatures)[id], damage, tick)]
        && r.value == old(creatures)[id].health - creatures[id].health
      ensures r.Err? ==> unchanged(this)
    {
      if damage == 0 || attacker !in players || id !in creatures || !creatures[id].active || creatures[id].isNpc
         || !Adjacent(players[attacker], creatures[id].position) || !ready {
        return Err;
      }
      var applied := Min(creatures[id].health, Min(damage, 100));
      if applied > 0 {
        var lowered := SetHealth(id, creatures[id].health - applied);
        if creatures[id].health == 0 {
          var put := Deactivate(id);
        }
      } else {
        assert creatures[id := creatures[id]] == creatures;
      }
      return Ok(applied);
    }

    // ----- restart -----

    method TakeSnapshot() returns (rs: seq<Record>)
      ensures rs == Snapshot(Ids(creatures), creatures, tick)
    {
      var ids := CreatureIds();
      ghost var whole := Snapshot(ids, creatures, tick);
      rs := [];
      assert ids[0..] == ids && [] + whole == whole;
      for i := 0 to |ids|
        invariant rs + Snapshot(ids[i..], creatures, tick) == whole
      {
        var id, c := ids[i], creatures[ids[i]];
        assert ids[i..][0] == id && ids[i..][1..] == ids[i + 1..];
        ghost var one := if Persisted(c) then [RecordOf(id, c, tick)] else [];
        Assoc(rs, one, Snapshot(ids[i + 1..], creatures, tick));
        assert rs + one == if Persisted(c) then rs + [RecordOf(id, c, tick)] else rs;
        if Persisted(c) {
          rs := rs + [RecordOf(id, c, tick)];
        }
      }
      assert ids[|ids|..] == [] && rs + [] == rs;
    }

    /** Checks every record by itself and keeps those a restore applies. */
    method Screen(records: seq<Record>) returns (r: Result<seq<Record>>)
      ensures r.Ok? <==> UniqueIds(records) && forall i | 0 <= i < |records| :: Acceptable(records[i], creatures)
      ensures r.Ok? ==> r.value == KnownOf(records, creatures)
    {
      var seen: set<CreatureId>, known := {}, [];
      for i := 0 to |records|
        invariant forall id :: id in seen <==> exists j :: 0 <= j < i && records[j].id == id
        invariant UniqueIds(records[..i])
        invariant forall j | 0 <= j < i :: Acceptable(records[j], creatures)
        invariant known == KnownOf(records[..i], creatures)
      {
        var record := records[i];
        assert records[..i + 1][..i] == records[..i];
        if record.id in seen {
          return Err;
        }
        seen := seen + {record.id};
        if record.position != ORIGIN {
          if record.health > 100 {
            return Err;
          }
          if record.id in creatures {
            if !Plausible(record, creatures[record.id]) {
              return Err;
            }
            known := known + [record];
          }
        }
      }
      assert records[..|records|] == records;
      return Ok(known);
    }

    /** Checks the prospective tiles against players, kept creatures and one another. */
    method TilesFree(known: seq<Record>) returns (free: bool)
      requires forall i | 0 <= i < |known| :: Known(known[i], creatures)
      ensures free <==> NoConflict(known, creatures, PlayerTiles(players))
    {
      var kept := KeptTiles(known, creatures);
      var taken := kept;
      for i := 0 to |known|
        invariant forall p :: p in taken <==> p in kept || exists j :: 0 <= j < i && known[j].active && known[j].position == p
        invariant forall j | 0 <= j < i && known[j].active ::
                    known[j].position !in PlayerTiles(players) && known[j].position !in kept
        invariant PlacedApart(known[..i], creatures)
      {
        var record := known[i];
        if record.active {
          if record.position in PlayerTiles(players) || record.position in taken {
            return false;
          }
          taken := taken + {record.position};
        }
      }
      assert known[..|known|] == known;
      return true;
    }

    /** Applies one checked record; tells whether the creature was not already in that state. */
    method ApplyRecord(record: Record) returns (changed: bool)
      requires record.id in creatures && record.health <= 100
      modifies this`creatures
      ensures creatures == old(creatures)[record.id := RestoredCreature(old(creatures)[record.id], record, tick)]
      ensures !changed ==> SamePlaces(creatures, old(creatures))
    {
      var c := creatures[record.id];
      changed := c.position != record.position || c.active != record.active || c.health != record.health || c.target.Some?
        || c.due != Deadline(record.reactivation, tick)
        || c.nextMelee != (if record.melee.Some? then SatAdd(tick, record.melee.value) else tick)
        || c.sequence != record.sequence;
      creatures := creatures[record.id := RestoredCreature(c, record, tick)];
    }

    /** Applies checked records one by one. */
    method ApplyRecords(known: seq<Record>) returns (changed: bool)
      requires UniqueIds(known)
      requires forall i | 0 <= i < |known| :: Known(known[i], creatures) && Acceptable(known[i], creatures)
      modifies this`creatures
      ensures creatures == Restored(known, old(creatures), tick)
      ensures !changed ==> SamePlaces(creatures, old(creatures))
    {
      changed := false;
      ghost var before := creatures;
      for i := 0 to |known|
        invariant creatures == Restored(known[..i], before, tick)
        invariant !changed ==> SamePlaces(creatures, before)
      {
        assert known[..i + 1][..i] == known[..i];
        RestoredAt(known[..i], before, tick);
        assert creatures[known[i].id] == before[known[i].id];
        var touched := ApplyRecord(known[i]);
        changed := changed || touched;
      }
      assert known[..|known|] == known;
    }

    /**
     * Restores a snapshot: all of it or nothing. Returns how many records were applied; the index is
     * recomputed only if some creature changed, and is right either way.
     */
    method RestoreRuntime(records: seq<Record>) returns (r: Result<nat>)
      requires Valid()
      modifies this`creatures, this`occupied
      ensures Valid()
      ensures old(Distinct(creatures)) ==> Distinct(creatures)
      ensures r.Ok? <==> Restorable(records, old(creatures), PlayerTiles(players))
      ensures r.Ok? ==> creatures == Restored(records, old(creatures), tick)
                        && r.value == |KnownOf(records, old(creatures))|
      ensures r.Err? ==> unchanged(this)
    {
      var screened := Screen(records);
      if screened.Err? {
        return Err;
      }
      var known := screened.value;
      KnownRecordsSuffice(records, creatures, tick, PlayerTiles(players));
      var free := TilesFree(known);
      if !free {
        return Err;
      }
      ghost var before, after := creatures, Restored(records, creatures, tick);
      RestoreKeepsApart(records, before, tick, PlayerTiles(players));
      RestoreKeepsTimed(records, before, tick);
      ApplyAndRefresh(known);
      assert creatures == after;
      return Ok(|known|);
    }

    /** Applies known records and brings the index up to date. */
    method ApplyAndRefresh(known: seq<Record>)
      requires occupied == ActiveTiles(creatures)
      requires UniqueIds(known) && forall i | 0 <= i < |known| :: Known(known[i], creatures) && Acceptable(known[i], creatures)
      modifies this`creatures, this`occupied
      ensures creatures == Restored(known, old(creatures), tick) && occupied == ActiveTiles(creatures)
    {
      ghost var before := creatures;
      var changed := ApplyRecords(known);
      if changed {
        RefreshOccupancy();
      } else {
        SamePlacesSameTiles(creatures, before);
      }
    }

    // ----- players -----

    /** Registers a player on a tile free of players and active creatures. */
    method AddPlayer(id: PlayerId, name: string, at: Position) returns (r: Result<()>)
      requires Valid()
      modifies this`players, this`lifecycles
      ensures Valid()
      ensures r.Ok? <==> !Blank(name) && id !in old(players) && at !in PlayerTiles(old(players)) && at !in ActiveTiles(creatures)
      ensures r.Ok? ==> players == old(players)[id := at] && lifecycles == old(lifecycles)[id := ALIVE]
      ensures r.Err? ==> unchanged(this)
      ensures Spread(old(players)) ==> Spread(players)
    {
      if Blank(name) || id in players || at in PlayerTiles(players) || at in occupied {
        return Err;
      }
      PlacePlayer(players, id, at, occupied);
      lifecycles := lifecycles[id := ALIVE];
      players := players[id := at];
      return Ok(());
    }

    /** Forgets a player wherever it is referred to: own records, follow intents, creature targets. */
    method RemovePlayer(id: PlayerId) returns (r: Result<Position>)
      requires Valid()
      modifies this`players, this`lifecycles, this`follows, this`creatures
      ensures Valid()
      ensures old(Distinct(creatures)) ==> Distinct(creatures)
      ensures r == if id in old(players) then Ok(old(players)[id]) else Err
      ensures r.Ok? ==>
        && players == old(players) - {id} && lifecycles == old(lifecycles) - {id}
        && follows == WithoutReferences(old(follows) - {id}, id)
        && creatures == Forgetting(old(creatures), id)
      ensures r.Err? ==> unchanged(this)
      ensures Spread(old(players)) ==> Spread(players)
    {
      if id !in players {
        return Err;
      }
      var at := players[id];
      players := players - {id};
      lifecycles := lifecycles - {id};
      follows := WithoutReferences(follows - {id}, id);
      ForgettingIsOrderly(creatures, id, tick);
      ForgetTarget(id);
      return Ok(at);
    }

    method ForgetTarget(gone: PlayerId)
      modifies this`creatures
      ensures creatures == Forgetting(old(creatures), gone)
    {
      var ids := CreatureIds();
      for i := 0 to |ids|
        invariant creatures.Keys == old(creatures).Keys
        invariant forall j | 0 <= j < i :: creatures[ids[j]] == Forgetting(old(creatures), gone)[ids[j]]
        invariant forall j | i <= j < |ids| :: creatures[ids[j]] == old(creatures)[ids[j]]
      {
        var c := creatures[ids[i]];
        if c.target == Some(gone) {
          creatures := creatures[ids[i] := c.(target := None)];
        }
      }
    }

    /** A raw move to an adjacent tile. It respects creatures but does not look at other players. */
    method MovePlayer(id: PlayerId, to: Position) returns (r: Result<()>)
      requires Valid()
      modifies this`players
      ensures Valid()
      ensures r.Ok? <==> Alive(lifecycles, id) && to !in ActiveTiles(creatures) && Adjacent(old(players)[id], to)
      ensures players == if r.Ok? then old(players)[id := to] else old(players)
      ensures Spread(old(players)) && r.Ok? ==> (Spread(players) <==> to !in OthersThan(old(players), id))
    {
      if id !in lifecycles || lifecycles[id].dead || to in occupied || !Adjacent(players[id], to) {
        return Err;
      }
      PlacePlayer(players, id, to, occupied);
      players := players[id := to];
      return Ok(());
    }

    method MovePlayerCardinal(id: PlayerId, d: Direction) returns (r: Result<(Position, Position)>)
      requires Valid()
      modifies this`players
      ensures Valid()
      ensures r.Ok? <==> Alive(lifecycles, id) && Step(old(players)[id], d).Ok?
                         && Step(old(players)[id], d).value !in ActiveTiles(creatures)
      ensures r.Ok? ==> r == Ok((old(players)[id], Step(old(players)[id], d).value))
                        && players == old(players)[id := Step(old(players)[id], d).value]
      ensures r.Err? ==> players == old(players)
    {
      if id !in players {
        return Err;
      }
      var from := players[id];
      var to := Step(from, d);
      if to.Err? {
        return Err;
      }
      var moved := MovePlayer(id, to.value);
      return if moved.Ok? then Ok((from, to.value)) else Err;
    }

    method Teleport(id: PlayerId, to: Position) returns (r: Result<(Position, Position)>)
      requires Valid()
      modifies this`players
      ensures Valid()
      ensures r.Ok? <==> Alive(lifecycles, id) && to !in ActiveTiles(creatures) && to !in OthersThan(old(players), id)
      ensures r.Ok? ==> r.value == (old(players)[id], to) && players == old(players)[id := to]
      ensures r.Err? ==> players == old(players)
      ensures Spread(old(players)) ==> Spread(players)
    {
      if id !in lifecycles || lifecycles[id].dead || to in occupied || to in OthersThan(players, id) {
        return Err;
      }
      PlacePlayer(players, id, to, occupied);
      var from := players[id];
      players := players[id := to];
      return Ok((from, to));
    }

    /** Selects or clears the player to follow. */
    method SetFollow(id: PlayerId, target: Option<PlayerId>) returns (r: Result<()>)
      requires Valid()
      modifies this`follows
      ensures Valid()
      ensures r.Ok? <==> id in players
                         && (target.Some? ==> Alive(lifecycles, id) && target.value != id && Alive(lifecycles, target.value))
      ensures r.Ok? ==> follows == if target.Some? then old(follows)[id := target.value] else old(follows) - {id}
      ensures r.Err? ==> follows == old(follows)
    {
      if id !in players || (target.Some? && (lifecycles[id].dead || target.value == id || target.value !in players
                                             || lifecycles[target.value].dead)) {
        return Err;
      }
      follows := if target.Some? then follows[id := target.value] else follows - {id};
      return Ok(());
    }

    // ----- the follow pass -----

    /**
     * One pass over all follow intents. It never fails, every player that moved took one step that
     * saves a step (`Follow.TurnInPass`), and exactly the players found elsewhere are reported.
     */
    method FollowPass(walkable: set<Position>) returns (r: Result<set<PlayerId>>)
      requires Valid()
      modifies this`players
      ensures Valid()
      ensures players == AfterTurns(old(players), PlayerOrder(old(players)), Scene(walkable, occupied, Dead(lifecycles), follows))
      ensures r == Ok(Displaced(old(players), players))
      ensures Spread(old(players)) ==> Spread(players)
    {
      var ids := PlayerIds();
      ghost var s, before := Scene(walkable, occupied, Dead(lifecycles), follows), players;
      var moved: set<PlayerId> := {};
      PassStart(before, ids, s);
      for i := 0 to |ids|
        invariant Valid()
        invariant PassAt(before, players, ids, s, i, moved)
      {
        PassStep(before, players, ids, s, i, moved);
        var turn := FollowTurn(ids[i], walkable);
        if turn.Err? {
          return Err;
        }
        if turn.value {
          moved := moved + {ids[i]};
        }
      }
      PassEnd(before, players, ids, s, moved);
      return Ok(moved);
    }

    /** One player's turn in the pass; true if it moved. */
    method FollowTurn(id: PlayerId, walkable: set<Position>) returns (r: Result<bool>)
      requires Valid() && id in players
      modifies this`players
      ensures Valid()
      ensures players == AfterTurn(old(players), id, Scene(walkable, occupied, Dead(lifecycles), follows))
      ensures r == Ok(Turn(old(players), id, Scene(walkable, occupied, Dead(lifecycles), follows)).Some?)
    {
      if id !in follows || lifecycles[id].dead || lifecycles[follows[id]].dead {
        return Ok(false);
      }
      var source, target := players[id], players[follows[id]];
      if Adjacent(source, target) || source.z != target.z {
        return Ok(false);
      }
      var d := TryFollow(id, walkable, Toward(source, target));
      if d.None? {
        return Ok(false);
      }
      var moved := MovePlayerCardinal(id, d.value);
      return if moved.Ok? then Ok(true) else Err;
    }

    /** The first preferred direction whose tile is free of creatures and of other players. */
    method TryFollow(id: PlayerId, walkable: set<Position>, ds: seq<Direction>) returns (r: Option<Direction>)
      requires id in players
      ensures r == FirstFree(players[id], ds, walkable, occupied + OthersThan(players, id))
    {
      var source := players[id];
      ghost var taken := occupied + OthersThan(players, id);
      assert ds[0..] == ds;
      for i := 0 to |ds|
        invariant FirstFree(source, ds[i..], walkable, taken) == FirstFree(source, ds, walkable, taken)
      {
        assert ds[i..][0] == ds[i] && ds[i..][1..] == ds[i + 1..];
        var to := Step(source, ds[i]);
        if to.Ok? && to.value in walkable && to.value !in occupied && to.value !in OthersThan(players, id) {
          return Some(ds[i]);
        }
      }
      return None;
    }

    // ----- death, respawn, time -----

    /** Records a death at the temple of the player's town; a second death changes nothing. */
    method Die(id: PlayerId, temple: Option<Position>) returns (r: Result<Lifecycle>)
      requires Valid()
      modifies this`lifecycles, this`follows
      ensures Valid()
      ensures r.Ok? <==> id in players && (old(lifecycles)[id].dead || temple.Some?)
      ensures r.Ok? ==> lifecycles == old(lifecycles)[id := r.value] && r.value.dead
      ensures r.Ok? && old(lifecycles)[id].dead ==> unchanged(this)
      ensures r.Ok? && !old(lifecycles)[id].dead ==>
        && r.value == Lifecycle(true, temple, Some(tick), false) && follows == WithoutReferences(old(follows), id)
      ensures r.Err? ==> unchanged(this)
    {
      if id !in players {
        return Err;
      }
      if lifecycles[id].dead {
        return Ok(lifecycles[id]);
      }
      if temple.None? {
        return Err;
      }
      var state := Lifecycle(true, temple, Some(tick), false);
      lifecycles := lifecycles[id := state];
      follows := WithoutReferences(follows, id);
      return Ok(state);
    }

    /** Brings a dead player back at its temple, unless the temple is blocked. */
    method Respawn(id: PlayerId) returns (r: Result<Position>)
      requires Valid()
      modifies this`players, this`lifecycles
      ensures Valid()
      ensures r.Ok? <==>
        && id in old(players) && old(lifecycles)[id].dead
        && old(lifecycles)[id].respawnAt.value !in ActiveTiles(creatures)
        && old(lifecycles)[id].respawnAt.value !in OthersThan(old(players), id)
      ensures r.Ok? ==> Some(r.value) == old(lifecycles)[id].respawnAt
                        && players == old(players)[id := r.value] && lifecycles == old(lifecycles)[id := ALIVE]
      ensures r.Err? ==> unchanged(this)
      ensures Spread(old(players)) ==> Spread(players)
    {
      if id !in players || !lifecycles[id].dead {
        return Err;
      }
      var at := lifecycles[id].respawnAt.value;
      if at in occupied || at in OthersThan(players, id) {
        return Err;
      }
      PlacePlayer(players, id, at, occupied);
      players := players[id := at];
      lifecycles := lifecycles[id := ALIVE];
      return Ok(at);
    }

    /** Loads a persisted lifecycle record. */
    method Hydrate(id: PlayerId, state: Lifecycle) returns (r: Result<bool>)
      requires Valid()
      modifies this`lifecycles
      ensures Valid()
      ensures r == if id in players && WellFormed(state) then Ok(old(lifecycles)[id] != state) else Err
      ensures lifecycles == if r.Ok? then old(lifecycles)[id := state] else old(lifecycles)
    {
      if id !in players || !WellFormed(state) {
        return Err;
      }
      var changed := lifecycles[id] != state;
      lifecycles := lifecycles[id := state];
      return Ok(changed);
    }

    /** The clock goes on, and stops at its largest value. */
    method AdvanceTicks(elapsed: u16)
      requires Valid()
      modifies this`tick
      ensures Valid()
      ensures tick == SatAdd(old(tick), elapsed)
    {
      TimedLater(creatures, tick, SatAdd(tick, elapsed));
      tick := SatAdd(tick, elapsed);
    }
  }
}
