/**
 * What the world's commands mean, on values: the registries they leave behind, the choices they make,
 * and why each of them keeps the world in order.
 */
module WorldRules {
  import opened Prelude
  import opened Geometry
  import opened Creatures
  import opened Restart
  import opened Respawn
  import opened Follow
  import Detour

  datatype Lifecycle = Lifecycle(dead: bool, respawnAt: Option<Position>, deathTime: Option<u64>, lossApplied: bool)

  const ALIVE := Lifecycle(false, None, None, false)

  const MAX_STATIC_SPAWNS: nat := 65_536
  const DYNAMIC_ID_BASE: u32 := 0x7000_0000

  /** One entity of an imported spawn collection, with its metadata. */
  datatype Listing = Listing(id: CreatureId, name: string, isNpc: bool, position: Position, health: Percent,
                             area: Option<Area>, interval: u32, meleeMillis: Option<u32>, declaresDamage: bool)

  // ----- installing a collection -----

  /** White space of ASCII names, with the vertical tab and the form feed. */
  predicate White(c: char) {
    c in {' ', '\t', '\n', '\r', '\U{000B}', '\U{000C}'}
  }

  predicate Blank(name: string) {
    forall c | c in name :: White(c)
  }

  /** An entity at the unplaced origin installs dormant. */
  function Installed(e: Listing, tick: u64): Creature {
    Creature(e.name, e.isNpc, e.position, e.health, e.position, e.area, e.position != ORIGIN, e.health,
             tick, None, None, e.interval,
             if e.meleeMillis.Some? then Some((e.meleeMillis.value + 999) / 1000) else None,
             tick, e.declaresDamage, 0, None)
  }

  function Catalogued(es: seq<Listing>, tick: u64): Registry {
    if es == [] then map[] else Catalogued(es[..|es| - 1], tick)[es[|es| - 1].id := Installed(es[|es| - 1], tick)]
  }

  predicate UniqueListings(es: seq<Listing>) {
    forall i, j | 0 <= i < j < |es| :: es[i].id != es[j].id
  }

  predicate Installable(es: seq<Listing>, players: set<Position>) {
    && |es| <= MAX_STATIC_SPAWNS && UniqueListings(es)
    && forall i | 0 <= i < |es| :: !Blank(es[i].name) && es[i].position !in players
  }

  predicate DistinctlyPlaced(es: seq<Listing>) {
    forall i, j | 0 <= i < j < |es| && es[i].position != ORIGIN :: es[i].position != es[j].position
  }

  lemma {:induction false} CataloguedHolds(es: seq<Listing>, tick: u64)
    requires UniqueListings(es)
    ensures forall i | 0 <= i < |es| :: es[i].id in Catalogued(es, tick) && Catalogued(es, tick)[es[i].id] == Installed(es[i], tick)
    ensures forall id | id in Catalogued(es, tick) :: exists i :: 0 <= i < |es| && es[i].id == id
  {
    if es != [] {
      var front := es[..|es| - 1];
      CataloguedHolds(front, tick);
      forall i | 0 <= i < |es| - 1 ensures es[i] == front[i] {}
    }
  }

  /** One more entity: it is new exactly if its identifier has not been listed before. */
  lemma CataloguedStep(es: seq<Listing>, i: nat, tick: u64)
    requires i < |es| && UniqueListings(es[..i])
    ensures Catalogued(es[..i + 1], tick) == Catalogued(es[..i], tick)[es[i].id := Installed(es[i], tick)]
    ensures es[i].id !in Catalogued(es[..i], tick) <==> UniqueListings(es[..i + 1])
    ensures es[i].id in Catalogued(es[..i], tick) ==> !UniqueListings(es)
  {
    var front, all := es[..i], es[..i + 1];
    assert all[..i] == front && all[i] == es[i];
    CataloguedHolds(front, tick);
    if es[i].id in Catalogued(front, tick) {
      var j :| 0 <= j < i && front[j].id == es[i].id;
      assert all[j].id == all[i].id && es[j].id == es[i].id;
    } else {
      forall j, k | 0 <= j < k < i + 1 ensures all[j].id != all[k].id {
        assert all[j] == front[j];
        assert k < i ==> all[k] == front[k];
      }
    }
  }

  /** Creatures stand apart after an install exactly when the collection placed them apart. */
  lemma InstallPlacesApart(es: seq<Listing>, tick: u64)
    requires UniqueListings(es)
    ensures Distinct(Catalogued(es, tick)) <==> DistinctlyPlaced(es)
  {
    CataloguedHolds(es, tick);
    var cs := Catalogued(es, tick);
    if DistinctlyPlaced(es) {
      forall a, b | a in cs && b in cs && a != b && cs[a].active && cs[b].active
        ensures cs[a].position != cs[b].position
      {
        var i :| 0 <= i < |es| && es[i].id == a;
        var j :| 0 <= j < |es| && es[j].id == b;
        assert i < j || j < i;
      }
    } else {
      var i, j :| 0 <= i < j < |es| && es[i].position != ORIGIN && es[i].position == es[j].position;
      assert cs[es[i].id].active && cs[es[j].id].active;
    }
  }

  lemma InstallIsOrderly(es: seq<Listing>, tick: u64, players: set<Position>)
    requires Installable(es, players)
    ensures Timed(Catalogued(es, tick), tick)
    ensures players !! ActiveTiles(Catalogued(es, tick))
  {
    CataloguedHolds(es, tick);
    var cs := Catalogued(es, tick);
    forall id | id in cs
      ensures TimedCreature(cs[id], tick) && cs[id].position !in players
    {
      var i :| 0 <= i < |es| && es[i].id == id;
      assert cs[id] == Installed(es[i], tick);
    }
  }

  /** Per-player records exist for exactly the players online, and nobody follows an absent player. */
  predicate InStep(players: Crowd, lifecycles: map<PlayerId, Lifecycle>, follows: map<PlayerId, PlayerId>) {
    && lifecycles.Keys == players.Keys
    && (forall id | id in lifecycles && lifecycles[id].dead :: lifecycles[id].respawnAt.Some?)
    && (forall id | id in follows :: id in players && follows[id] in players && follows[id] != id)
  }

  /** Writing one creature keeps the world in order if it is placed clear of players and creatures. */
  lemma UpdateIsOrderly(cs: Registry, id: CreatureId, c: Creature, players: set<Position>, tick: u64)
    requires Timed(cs, tick) && TimedCreature(c, tick) && players !! ActiveTiles(cs)
    requires c.active ==> c.position !in players
    ensures Timed(cs[id := c], tick) && players !! ActiveTiles(cs[id := c])
    ensures Distinct(cs) && (c.active ==> c.position !in OtherTiles(cs, id)) ==> Distinct(cs[id := c])
  {
    var after := cs[id := c];
    forall p | p in ActiveTiles(after) ensures p !in players {
      var other :| other in after && after[other].active && after[other].position == p;
      assert other != id ==> cs[other].position in ActiveTiles(cs);
    }
    forall other | other in cs && other != id && cs[other].active ensures cs[other].position in OtherTiles(cs, id) {}
  }

  const MAX_TARGET_RANGE: u8 := 8

  function Chebyshev(p: Position, q: Position): nat {
    var dx, dy := AbsDiff(p.x, q.x), AbsDiff(p.y, q.y);
    if dx >= dy then dx else dy
  }

  /** A living player on the creature's floor within range. */
  predicate InRange(players: Crowd, lifecycles: map<PlayerId, Lifecycle>, from: Position, range: u8, p: PlayerId) {
    p in players && p in lifecycles && !lifecycles[p].dead && players[p].z == from.z && Chebyshev(players[p], from) <= range
  }

  predicate Closer(players: Crowd, from: Position, a: PlayerId, b: PlayerId)
    requires a in players && b in players
  {
    var da, db := Chebyshev(players[a], from), Chebyshev(players[b], from);
    da < db || (da == db && a <= b)
  }

  predicate IsNearest(players: Crowd, lifecycles: map<PlayerId, Lifecycle>, from: Position, range: u8, best: Option<PlayerId>) {
    match best
    case None => forall p | p in players :: !InRange(players, lifecycles, from, range, p)
    case Some(b) =>
      && InRange(players, lifecycles, from, range, b)
      && forall p | p in players && InRange(players, lifecycles, from, range, p) :: Closer(players, from, b, p)
  }

  ghost function PlayerOrder(players: Crowd): (ids: seq<PlayerId>)
    ensures EachOnce(ids)
    ensures forall i, j | 0 <= i < j < |ids| :: ids[i] < ids[j]
    ensures forall id :: id in ids <==> id in players
  {
    Ascending(players.Keys)
  }

  datatype StepOutcome = NoTarget | AlreadyAdjacent | Blocked | Moving(direction: Direction, from: Position, to: Position)

  /** The terrain a detour is searched on. */
  function DetourTerrain(cs: Registry, id: CreatureId, walkable: set<Position>, standing: set<Position>): Detour.Terrain
    requires id in cs
  {
    Detour.Terrain(walkable, (ActiveTiles(cs) - {cs[id].position}) + standing)
  }

  /** What one step towards a target has to be, case by case. */
  ghost predicate RightStep(before: Registry, after: Registry, players: Crowd, lifecycles: map<PlayerId, Lifecycle>,
                            id: CreatureId, walkable: set<Position>, limit: nat, outcome: StepOutcome)
    requires id in before && lifecycles.Keys == players.Keys
  {
    var c := before[id];
    if c.isNpc || c.target.None? || c.target.value !in players || lifecycles[c.target.value].dead then
      outcome == NoTarget && after == before[id := c.(target := None)]
    else
      var target, standing := players[c.target.value], PlayerTiles(players);
      if Adjacent(c.position, target) then outcome == AlreadyAdjacent && after == before
      else if c.position.z != target.z then outcome == Blocked && after == before
      else
        var g, taken := Ground(walkable, standing), OtherTiles(before, id);
        match outcome
        case Moving(d, from, to) =>
          && from == c.position && Step(from, d) == Ok(to) && after == before[id := c.(position := to)]
          && (Preferred(c.position, target, g, taken, d)
              || (NothingCloser(c.position, target, g, taken)
                  && Detour.IsDetour(DetourTerrain(before, id, walkable, standing), from, target, limit, Some(d))))
        case Blocked =>
          NothingCloser(c.position, target, g, taken) && after == before
          && Detour.IsDetour(DetourTerrain(before, id, walkable, standing), c.position, target, limit, None)
        case _ => false
  }

  lemma DetourStepIsFree(cs: Registry, id: CreatureId, walkable: set<Position>, standing: set<Position>,
                         target: Position, limit: nat, d: Direction)
    requires id in cs && cs[id].active
    requires Detour.IsDetour(DetourTerrain(cs, id, walkable, standing), cs[id].position, target, limit, Some(d))
    ensures Moved(cs, Ground(walkable, standing), id, d).Ok?
  {
    var t := DetourTerrain(cs, id, walkable, standing);
    var route :| Detour.Arrives(t, cs[id].position, target, route) && |route| <= limit && route[0] == d;
    Detour.FirstHop(t, cs[id].position, route);
    var to := Step(cs[id].position, d).value;
    assert to in OtherTiles(cs, id) ==> to in ActiveTiles(cs);
  }

  /** Whether an attack turn gets as far as hitting: due, with a living target next to the creature. */
  predicate Hits(c: Creature, players: Crowd, lifecycles: map<PlayerId, Lifecycle>, tick: u64) {
    && tick >= c.nextMelee && !c.isNpc && c.target.Some? && c.target.value in players
    && !(c.target.value in lifecycles && lifecycles[c.target.value].dead)
    && Adjacent(c.position, players[c.target.value])
  }

  /** What a hit does to the player: his vitality is not part of this model. */
  datatype Fate = Survives | Dies(temple: Position) | Homeless

  /** The creature after its attack turn. A lethal hit without a temple fails, but the damage cycle has moved on. */
  function Struck(c: Creature, players: Crowd, lifecycles: map<PlayerId, Lifecycle>, tick: u64, fate: Fate): Creature {
    if tick < c.nextMelee then c
    else if c.isNpc then c.(target := None)
    else if c.target.None? then c
    else if c.target.value !in players || (c.target.value in lifecycles && lifecycles[c.target.value].dead) then c.(target := None)
    else if !Adjacent(c.position, players[c.target.value]) then c
    else
      var swung := c.(sequence := if c.declaresDamage then SatAdd(c.sequence, 1) else c.sequence);
      if fate.Homeless? then swung
      else swung.(target := if fate.Dies? then None else c.target,
                  nextMelee := if c.cooldown.Some? then SatAdd(tick, c.cooldown.value) else c.nextMelee)
  }

  /** A creature after a hit of so many percentage points; losing the last one puts it away. */
  function Wounded(c: Creature, damage: u16, tick: u64): Creature {
    var applied := Min(c.health, Min(damage, 100));
    if applied == 0 then c
    else if applied == c.health then PutAway(c.(health := 0), tick)
    else c.(health := c.health - applied)
  }

  /** Case folding and trimming, for ASCII names. */
  function Fold(name: string): string {
    Lower(TrimEnd(TrimStart(name)))
  }

  function TrimStart(s: string): string {
    if s != [] && White(s[0]) then TrimStart(s[1..]) else s
  }

  function TrimEnd(s: string): string {
    if s != [] && White(s[|s| - 1]) then TrimEnd(s[..|s| - 1]) else s
  }

  function Lower(s: string): string {
    if s == [] then [] else [if 'A' <= s[0] <= 'Z' then s[0] - 'A' + 'a' else s[0]] + Lower(s[1..])
  }

  /** The requested tile and its eight neighbours, in the order they are tried; an `as u16` cast wraps. */
  function Around(at: Position, k: nat): Position
    requires k < 9
  {
    var dx := [0, 1, -1, 0, 0, 1, -1, 1, -1][k];
    var dy := [0, 0, 0, 1, -1, 1, -1, -1, 1][k];
    Position(Clamp(at.x + dx), Clamp(at.y + dy), at.z)
  }

  function Clamp(v: int): u16 {
    if v < 0 then 0 else v % 0x1_0000
  }

  predicate Vacant(cs: Registry, players: Crowd, p: Position) {
    (forall id | id in players :: players[id] != p) && forall id | id in cs && cs[id].active :: cs[id].position != p
  }

  predicate FirstVacant(cs: Registry, players: Crowd, at: Position, k: nat) {
    k < 9 && Vacant(cs, players, Around(at, k)) && forall j | 0 <= j < k :: !Vacant(cs, players, Around(at, j))
  }

  predicate FirstNamed(cs: Registry, folded: string, id: CreatureId) {
    && id in cs && Lower(cs[id].name) == folded
    && forall other | other in cs && other < id :: Lower(cs[other].name) != folded
  }

  /** A summon needs room, a template of that name and a free tile; nothing else can refuse it. */
  ghost predicate CanSummon(cs: Registry, players: Crowd, folded: string, at: Position) {
    && |cs| < MAX_STATIC_SPAWNS && folded != []
    && (exists id :: id in cs && Lower(cs[id].name) == folded)
    && exists k :: 0 <= k < 9 && Vacant(cs, players, Around(at, k))
  }

  ghost predicate SummonPlan(cs: Registry, players: Crowd, folded: string, at: Position,
                             template: CreatureId, k: nat, id: CreatureId) {
    FirstNamed(cs, folded, template) && FirstVacant(cs, players, at, k) && LeastUnused(cs, id)
  }

  ghost predicate LeastUnused(cs: Registry, id: CreatureId) {
    id >= DYNAMIC_ID_BASE && id !in cs && forall i | DYNAMIC_ID_BASE <= i < id :: i in cs.Keys
  }

  function Summoned(template: Creature, at: Position, tick: u64): Creature {
    template.(isNpc := false, position := at, spawn := at, area := None, active := true, activatedAt := tick,
              inactiveSince := None, due := None, interval := 0, nextMelee := tick, sequence := 0, target := None)
  }

  function PutAway(c: Creature, tick: u64): Creature {
    if c.active then
      c.(active := false, target := None, inactiveSince := Some(tick),
         due := if c.interval > 0 then Some(SatAdd(tick, c.interval)) else None)
    else c.(target := None)
  }

  lemma SameTiles(cs: Registry, id: CreatureId, c: Creature)
    requires id in cs && c.active == cs[id].active && c.position == cs[id].position
    ensures ActiveTiles(cs[id := c]) == ActiveTiles(cs)
    ensures Distinct(cs) ==> Distinct(cs[id := c])
  {
    var after := cs[id := c];
    forall p | p in ActiveTiles(cs) ensures p in ActiveTiles(after) {
      var other :| other in cs && cs[other].active && cs[other].position == p;
      assert after[other].active && after[other].position == p;
    }
    forall p | p in ActiveTiles(after) ensures p in ActiveTiles(cs) {
      var other :| other in after && after[other].active && after[other].position == p;
      assert cs[other].active && cs[other].position == p;
    }
  }

  /** A run of consecutive members is no longer than the set. */
  lemma {:induction false} RunFits(from: int, n: nat, s: set<int>)
    requires forall i | from <= i < from + n :: i in s
    ensures n <= |s|
  {
    if n > 0 {
      var last := from + n - 1;
      assert last in s;
      RunFits(from, n - 1, s - {last});
    }
  }

  /** One turn of the planner moves a creature from what is still to plan into the batch. */
  lemma PlannedInTurn(ids: seq<CreatureId>, i: nat, cs: Registry, taken: set<Position>, g: Ground, tick: u64, b: Batch)
    requires i < |ids| && forall id | id in ids :: id in cs
    ensures var (one, taken') := PlanOne(ids[i], cs[ids[i]], taken, g, tick);
      Extends(b, Planned(ids[i..], cs, taken, g, tick))
        == Extends(Extends(b, one), Planned(ids[i + 1..], cs, taken', g, tick))
  {
    var rest := ids[i..];
    assert rest[0] == ids[i] && rest[1..] == ids[i + 1..];
    var (one, taken') := PlanOne(ids[i], cs[ids[i]], taken, g, tick);
    Assoc(b.decisions, one.decisions, Planned(ids[i + 1..], cs, taken', g, tick).decisions);
  }

  // ----- what a run passes on -----

  /** A creature keeps what it was installed with, and comes to stand on the origin only where it may walk there. */
  predicate Inherits(c: Creature, c': Creature, walkable: set<Position>) {
    && c'.interval == c.interval && c'.cooldown == c.cooldown && c'.spawn == c.spawn
    && (c'.position == ORIGIN ==> c.position == ORIGIN || c.spawn == ORIGIN || ORIGIN in walkable)
  }

  /** Everybody but `gone` is still there and inherits. */
  predicate Carried(cs: Registry, cs': Registry, walkable: set<Position>, gone: set<CreatureId>) {
    forall id | id in cs && id !in gone :: id in cs' && Inherits(cs[id], cs'[id], walkable)
  }

  lemma CarriedOn(a: Registry, b: Registry, c: Registry, walkable: set<Position>, gone: set<CreatureId>)
    requires Carried(a, b, walkable, {}) && Carried(b, c, walkable, gone) && a.Keys !! gone
    ensures Carried(a, c, walkable, {})
  {
    forall id | id in a ensures id in c && Inherits(a[id], c[id], walkable) {
      assert id in b && Inherits(a[id], b[id], walkable) && Inherits(b[id], c[id], walkable);
    }
  }

  /** Neither a blow given nor a blow taken moves a creature. */
  lemma FightIsCarried(cs: Registry, id: CreatureId, c: Creature, walkable: set<Position>)
    requires id in cs && c.position == cs[id].position && Inherits(cs[id], c, walkable)
    ensures Carried(cs, cs[id := c], walkable, {})
  {
  }

  lemma MoveIsCarried(cs: Registry, g: Ground, id: CreatureId, d: Direction)
    requires Moved(cs, g, id, d).Ok?
    ensures Carried(cs, Moved(cs, g, id, d).value, g.walkable, {})
  {
  }

  lemma StepIsCarriedOn(before: Registry, cs: Registry, g: Ground, id: CreatureId, d: Direction)
    requires Carried(before, cs, g.walkable, {})
    ensures Moved(cs, g, id, d).Ok? ==> Carried(before, Moved(cs, g, id, d).value, g.walkable, {})
  {
    if Moved(cs, g, id, d).Ok? {
      MoveIsCarried(cs, g, id, d);
      CarriedOn(before, cs, Moved(cs, g, id, d).value, g.walkable, {});
    }
  }

  /** A step towards a target is a step onto a walkable tile, or none. */
  lemma RightStepIsCarried(before: Registry, after: Registry, players: Crowd, lifecycles: map<PlayerId, Lifecycle>,
                           id: CreatureId, walkable: set<Position>, limit: nat, outcome: StepOutcome)
    requires id in before && lifecycles.Keys == players.Keys
    requires RightStep(before, after, players, lifecycles, id, walkable, limit, outcome)
    ensures Carried(before, after, walkable, {})
  {
    if outcome.Moving? && after != before {
      var target := players[before[id].target.value];
      var t := DetourTerrain(before, id, walkable, PlayerTiles(players));
      if Detour.IsDetour(t, outcome.from, target, limit, Some(outcome.direction)) {
        var route :| Detour.Arrives(t, outcome.from, target, route) && |route| <= limit && route[0] == outcome.direction;
        Detour.FirstHop(t, outcome.from, route);
      }
      assert outcome.to in walkable;
    }
  }

  /** A sweep puts creatures back on their spawns. */
  lemma SweepIsCarried(start: Pass, end: Pass, call: Call, walkable: set<Position>)
    requires Swept(start, end, call)
    ensures Carried(start.cs, end.cs, walkable, {})
  {
    forall id | id in start.cs ensures id in end.cs && Inherits(start.cs[id], end.cs[id], walkable) {
      assert Served(start.cs[id], end.cs[id], end.taken, call);
    }
  }

  /** A restore places nobody on the origin. */
  lemma RestoreIsCarried(rs: seq<Record>, cs: Registry, tick: u64, walkable: set<Position>)
    requires UniqueIds(rs) && forall i | 0 <= i < |rs| :: Acceptable(rs[i], cs)
    ensures Carried(cs, Restored(rs, cs, tick), walkable, {})
  {
    RestoredAt(rs, cs, tick);
    forall id | id in cs ensures Inherits(cs[id], Restored(rs, cs, tick)[id], walkable) {
      if i :| 0 <= i < |rs| && Known(rs[i], cs) && rs[i].id == id {
        assert Restored(rs, cs, tick)[id] == RestoredCreature(cs[id], rs[i], tick);
      }
    }
  }

  // ----- players -----

  /** Placing one player keeps players off the creatures, and off each other exactly if the tile was free. */
  lemma PlacePlayer(players: Crowd, id: PlayerId, to: Position, tiles: set<Position>)
    requires PlayerTiles(players) !! tiles && to !in tiles
    ensures PlayerTiles(players[id := to]) !! tiles
    ensures Spread(players) ==> (Spread(players[id := to]) <==> to !in OthersThan(players, id))
  {
    var after := players[id := to];
    forall p | p in PlayerTiles(after) ensures p !in tiles {
      var who :| who in after && after[who] == p;
      assert who != id ==> players[who] in PlayerTiles(players);
    }
    if Spread(players) {
      if to in OthersThan(players, id) {
        var who :| who in players && who != id && players[who] == to;
        assert after[who] == after[id];
      } else {
        forall who | who in players && who != id ensures after[who] != to {
          assert players[who] in OthersThan(players, id);
        }
      }
    }
  }

  /** The creatures with every target on one player forgotten. */
  function Forgetting(cs: Registry, gone: PlayerId): Registry {
    map id | id in cs :: if cs[id].target == Some(gone) then cs[id].(target := None) else cs[id]
  }

  lemma ForgettingIsOrderly(cs: Registry, gone: PlayerId, tick: u64)
    ensures ActiveTiles(Forgetting(cs, gone)) == ActiveTiles(cs)
    ensures Distinct(cs) ==> Distinct(Forgetting(cs, gone))
    ensures Timed(cs, tick) ==> Timed(Forgetting(cs, gone), tick)
  {
    SamePlacesSameTiles(cs, Forgetting(cs, gone));
    if Timed(cs, tick) {
      forall id | id in cs ensures TimedCreature(Forgetting(cs, gone)[id], tick) {
        assert TimedCreature(cs[id], tick);
      }
    }
  }

  /** Deadlines stay in order when the clock goes on. */
  lemma TimedLater(cs: Registry, tick: u64, later: u64)
    requires Timed(cs, tick) && tick <= later
    ensures Timed(cs, later)
  {
    forall id | id in cs ensures TimedCreature(cs[id], later) {
      assert TimedCreature(cs[id], tick);
    }
  }

  function WithoutReferences(follows: map<PlayerId, PlayerId>, gone: PlayerId): map<PlayerId, PlayerId> {
    map id | id in follows && follows[id] != gone :: follows[id]
  }

  function Dead(lifecycles: map<PlayerId, Lifecycle>): set<PlayerId> {
    set id | id in lifecycles && lifecycles[id].dead
  }

  predicate Alive(lifecycles: map<PlayerId, Lifecycle>, id: PlayerId) {
    id in lifecycles && !lifecycles[id].dead
  }

  /** A lifecycle record that may be hydrated: a full death record, or exactly the empty one. */
  predicate WellFormed(state: Lifecycle) {
    if state.dead then state.respawnAt.Some? && state.deathTime.Some? else state == ALIVE
  }
}
