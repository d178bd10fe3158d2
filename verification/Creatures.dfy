/** Static creatures as values: occupancy, cardinal moves, the batch planner, restart snapshots. */
module Creatures {
  import opened Prelude
  import opened Geometry

  type CreatureId = u32
  type Percent = x: int | 0 <= x <= 100

  /** Rectangular legacy spawn area. */
  datatype Area = Area(center: Position, radius: u16)

  predicate Inside(area: Area, p: Position) {
    p.z == area.center.z && AbsDiff(p.x, area.center.x) <= area.radius && AbsDiff(p.y, area.center.y) <= area.radius
  }

  datatype Creature = Creature(
    name: string,
    isNpc: bool,
    position: Position,
    fullHealth: Percent,
    spawn: Position,
    area: Option<Area>,
    active: bool,
    health: Percent,
    activatedAt: u64,
    inactiveSince: Option<u64>,
    due: Option<u64>,
    interval: u32,
    cooldown: Option<u64>,
    nextMelee: u64,
    declaresDamage: bool,
    sequence: u64,
    target: Option<PlayerId>)

  type Registry = map<CreatureId, Creature>

  /** `u64::saturating_add` */
  function SatAdd(a: u64, b: u64): u64 {
    if a + b > U64_MAX then U64_MAX else a + b
  }

  // ----- occupancy -----

  /** The tiles of the active creatures: what the cached index has to hold. */
  function ActiveTiles(cs: Registry): set<Position> {
    set id | id in cs && cs[id].active :: cs[id].position
  }

  /** No two active creatures stand on one tile. */
  predicate Distinct(cs: Registry) {
    forall a, b | a in cs && b in cs && a != b && cs[a].active && cs[b].active :: cs[a].position != cs[b].position
  }

  /** The tiles of the active creatures other than `id`. */
  function OtherTiles(cs: Registry, id: CreatureId): set<Position> {
    set other | other in cs && other != id && cs[other].active :: cs[other].position
  }

  /** The terrain a mover sees. */
  datatype Ground = Ground(walkable: set<Position>, players: set<Position>)

  /** A cardinal move of one creature, with all its checks. */
  function Moved(cs: Registry, g: Ground, id: CreatureId, d: Direction): Result<Registry> {
    if id !in cs || !cs[id].active then Err
    else
      match Step(cs[id].position, d)
      case Err => Err
      case Ok(to) =>
        if to !in g.walkable || to in g.players || to in OtherTiles(cs, id) then Err
        else Ok(cs[id := cs[id].(position := to)])
  }

  /** A successful move leaves its creature's old tile and takes the new one, in the index too. */
  lemma MoveUpdatesTiles(cs: Registry, id: CreatureId, to: Position)
    requires id in cs && cs[id].active && to !in OtherTiles(cs, id)
    requires Distinct(cs)
    ensures Distinct(cs[id := cs[id].(position := to)])
    ensures ActiveTiles(cs[id := cs[id].(position := to)]) == ActiveTiles(cs) - {cs[id].position} + {to}
    ensures OtherTiles(cs, id) == ActiveTiles(cs) - {cs[id].position}
  {
    var after := cs[id := cs[id].(position := to)];
    forall p | p in ActiveTiles(cs) - {cs[id].position} + {to} ensures p in ActiveTiles(after) {
      if p == to {
        assert after[id].position == to;
      } else {
        var other :| other in cs && cs[other].active && cs[other].position == p;
        assert after[other] == cs[other];
      }
    }
    forall p | p in ActiveTiles(after) ensures p in ActiveTiles(cs) - {cs[id].position} + {to} {
      var other :| other in after && after[other].active && after[other].position == p;
      assert other == id || after[other] == cs[other];
    }
    forall other | other in cs && other != id && cs[other].active ensures cs[other].position != to {
      assert cs[other].position in OtherTiles(cs, id);
    }
  }

  // ----- the batch planner -----

  datatype Decision = Decision(id: CreatureId, direction: Direction)
  datatype Batch = Batch(decisions: seq<Decision>, skipped: nat)

  /** The first direction of a list that leads to a tile outside `taken`. */
  function FirstFree(source: Position, ds: seq<Direction>, walkable: set<Position>, taken: set<Position>): (r: Option<Direction>)
    ensures r.Some? ==> r.value in ds && Step(source, r.value).Ok?
                        && Step(source, r.value).value in walkable && Step(source, r.value).value !in taken
    decreases |ds|
  {
    if ds == [] then None
    else if Step(source, ds[0]).Ok? && Step(source, ds[0]).value in walkable && Step(source, ds[0]).value !in taken then
      Some(ds[0])
    else FirstFree(source, ds[1..], walkable, taken)
  }

  /** The four directions clockwise from a starting point that changes with creature and clock. */
  function Rotated(seed: nat): seq<Direction> {
    DIRECTIONS[seed % 4..] + DIRECTIONS[..seed % 4]
  }

  lemma RotatedAt(seed: nat, k: nat)
    requires k < 4
    ensures |Rotated(seed)| == 4 && Rotated(seed)[k] == DIRECTIONS[(seed % 4 + k) % 4]
  {
    if seed % 4 + k < 4 {
      assert (seed % 4 + k) % 4 == seed % 4 + k;
    } else {
      assert (seed % 4 + k) % 4 == seed % 4 + k - 4;
    }
  }

  /** The step the planner selects for a creature, given the tiles taken by others. */
  function Pick(p: Position, seed: nat, g: Ground, taken: set<Position>): Option<Direction> {
    FirstFree(p, Rotated(seed), g.walkable, g.players + taken)
  }

  /** The tile on this side is on the map, walkable, and free of players and other creatures. */
  predicate Passable(p: Position, d: Direction, g: Ground, taken: set<Position>) {
    Step(p, d).Ok? && Step(p, d).value in g.walkable && Step(p, d).value !in g.players && Step(p, d).value !in taken
  }

  /** How many quarter turns clockwise a direction is from the one a creature tries first. */
  function Turns(d: Direction, seed: nat): nat {
    (Rank(d) + 4 - seed % 4) % 4
  }

  /** The passable side that comes first, clockwise from the starting direction. */
  predicate FirstPassable(p: Position, seed: nat, g: Ground, taken: set<Position>, d: Direction) {
    Passable(p, d, g, taken) && forall e | Turns(e, seed) < Turns(d, seed) :: !Passable(p, e, g, taken)
  }

  lemma {:induction false} FirstFreeMeans(p: Position, ds: seq<Direction>, walkable: set<Position>, taken: set<Position>, i: nat)
    requires i < |ds|
    ensures FirstFree(p, ds, walkable, taken) == None ==>
      !(Step(p, ds[i]).Ok? && Step(p, ds[i]).value in walkable && Step(p, ds[i]).value !in taken)
    ensures (Step(p, ds[i]).Ok? && Step(p, ds[i]).value in walkable && Step(p, ds[i]).value !in taken)
      ==> FirstFree(p, ds, walkable, taken).Some? && FirstFree(p, ds, walkable, taken).value in ds[..i + 1]
    decreases |ds|
  {
    if i > 0 {
      FirstFreeMeans(p, ds[1..], walkable, taken, i - 1);
      assert forall d | d in ds[1..][..i] :: d in ds[..i + 1];
    }
  }

  lemma TurnsAreRotated(seed: nat, d: Direction)
    ensures Rotated(seed)[Turns(d, seed)] == d
  {
    var r, k := seed % 4, Rank(d);
    RotatedAt(seed, Turns(d, seed));
    if r <= k {
      assert Turns(d, seed) == k - r;
      assert (r + (k - r)) % 4 == k;
    } else {
      assert Turns(d, seed) == k + 4 - r;
      assert (r + (k + 4 - r)) % 4 == k;
    }
  }

  lemma TurnsAt(seed: nat, k: nat)
    requires k < 4
    ensures Turns(Rotated(seed)[k], seed) == k
  {
    RotatedAt(seed, k);
    var r := seed % 4;
    assert Rank(DIRECTIONS[(r + k) % 4]) == (r + k) % 4;
    if r + k < 4 {
      assert (r + k) % 4 == r + k && (r + k + 4 - r) % 4 == k;
    } else {
      assert (r + k) % 4 == r + k - 4 && (r + k - 4 + 4 - r) % 4 == k;
    }
  }

  /** Whatever side is passable, the planner's choice is passable too, and comes no later. */
  lemma PickIsNoLater(p: Position, seed: nat, g: Ground, taken: set<Position>, d: Direction)
    requires Passable(p, d, g, taken)
    ensures var chosen := Pick(p, seed, g, taken);
      chosen.Some? && Passable(p, chosen.value, g, taken) && Turns(chosen.value, seed) <= Turns(d, seed)
    ensures Turns(Pick(p, seed, g, taken).value, seed) == Turns(d, seed) ==> Pick(p, seed, g, taken).value == d
  {
    var ds, i := Rotated(seed), Turns(d, seed);
    RotatedAt(seed, 0);
    TurnsAreRotated(seed, d);
    FirstFreeMeans(p, ds, g.walkable, g.players + taken, i);
    var e := Pick(p, seed, g, taken).value;
    var j :| 0 <= j < i + 1 && ds[..i + 1][j] == e;
    TurnsAt(seed, j);
    TurnsAreRotated(seed, e);
  }

  /** The planner stays put exactly if all four sides are blocked, and otherwise takes the first passable one. */
  lemma PickMeans(p: Position, seed: nat, g: Ground, taken: set<Position>)
    ensures Pick(p, seed, g, taken) == None <==> forall d :: !Passable(p, d, g, taken)
    ensures forall d :: Pick(p, seed, g, taken) == Some(d) <==> FirstPassable(p, seed, g, taken, d)
  {
    var chosen := Pick(p, seed, g, taken);
    forall d | Passable(p, d, g, taken)
      ensures chosen.Some? && Turns(chosen.value, seed) <= Turns(d, seed)
      ensures Turns(chosen.value, seed) == Turns(d, seed) ==> chosen.value == d
    {
      PickIsNoLater(p, seed, g, taken, d);
    }
    if chosen.Some? {
      assert Passable(p, chosen.value, g, taken);
      assert FirstPassable(p, seed, g, taken, chosen.value);
    }
  }

  /** One creature's turn in the planner: its decision, and the picture of taken tiles after it. */
  function PlanOne(id: CreatureId, c: Creature, taken: set<Position>, g: Ground, tick: u64): (r: (Batch, set<Position>))
    ensures |r.0.decisions| + r.0.skipped == if c.active then 1 else 0
    ensures r.0.decisions != [] ==> r.0.decisions[0].id == id
  {
    if !c.active then (Batch([], 0), taken)
    else
      var left := taken - {c.position};
      match Pick(c.position, id + tick, g, left)
      case None => (Batch([], 1), left + {c.position})
      case Some(d) => (Batch([Decision(id, d)], 0), left + {Step(c.position, d).value})
  }

  function Extends(done: Batch, rest: Batch): Batch {
    Batch(done.decisions + rest.decisions, done.skipped + rest.skipped)
  }

  /** The planner: one pass over the creatures, keeping its own picture of the taken tiles. */
  function Planned(ids: seq<CreatureId>, cs: Registry, taken: set<Position>, g: Ground, tick: u64): Batch
    requires forall id | id in ids :: id in cs
  {
    if ids == [] then Batch([], 0)
    else
      var (b, taken') := PlanOne(ids[0], cs[ids[0]], taken, g, tick);
      Extends(b, Planned(ids[1..], cs, taken', g, tick))
  }

  /** Carrying out decisions one after the other. */
  function Executed(cs: Registry, g: Ground, decisions: seq<Decision>): Result<Registry> {
    if decisions == [] then Ok(cs)
    else
      match Moved(cs, g, decisions[0].id, decisions[0].direction)
      case Err => Err
      case Ok(next) => Executed(next, g, decisions[1..])
  }

  /** The serial reference: each creature in turn looks at the real world and moves at once. */
  function SerialOne(id: CreatureId, cs: Registry, g: Ground, tick: u64): (after: Registry)
    requires id in cs
    ensures after.Keys == cs.Keys
    ensures forall other | other in cs && other != id :: after[other] == cs[other]
  {
    if !cs[id].active then cs
    else
      match Pick(cs[id].position, id + tick, g, OtherTiles(cs, id))
      case None => cs
      case Some(d) => cs[id := cs[id].(position := Step(cs[id].position, d).value)]
  }

  function Serial(ids: seq<CreatureId>, cs: Registry, g: Ground, tick: u64): Registry
    requires forall id | id in ids :: id in cs
    decreases |ids|
  {
    if ids == [] then cs else Serial(ids[1..], SerialOne(ids[0], cs, g, tick), g, tick)
  }

  function CountActive(ids: seq<CreatureId>, cs: Registry): nat
    requires forall id | id in ids :: id in cs
  {
    if ids == [] then 0 else (if cs[ids[0]].active then 1 else 0) + CountActive(ids[1..], cs)
  }

  predicate NoRepeats(s: seq<CreatureId>) {
    forall i, j | 0 <= i < j < |s| :: s[i] != s[j]
  }

  /** The creatures in the order the registry visits them. */
  ghost function Ids(cs: Registry): (ids: seq<CreatureId>)
    ensures NoRepeats(ids) && StrictlyAscending(ids)
    ensures forall id :: id in ids <==> id in cs
  {
    Ascending(cs.Keys)
  }

  lemma TailNoRepeats(s: seq<CreatureId>)
    requires s != [] && NoRepeats(s)
    ensures NoRepeats(s[1..]) && s[0] !in s[1..]
    ensures forall x :: x in s <==> x == s[0] || x in s[1..]
  {
    var rest := s[1..];
    forall i, j | 0 <= i < j < |rest| ensures rest[i] != rest[j] {
      assert s[i + 1] != s[j + 1];
    }
  }

  lemma {:induction false} CountReadsItsIdsOnly(ids: seq<CreatureId>, cs: Registry, cs': Registry)
    requires forall id | id in ids :: id in cs && id in cs' && cs[id] == cs'[id]
    ensures CountActive(ids, cs) == CountActive(ids, cs')
  {
    if ids != [] {
      CountReadsItsIdsOnly(ids[1..], cs, cs');
    }
  }

  /** The planner looks at nothing but the creatures it is asked about. */
  lemma {:induction false} PlanReadsItsIdsOnly(ids: seq<CreatureId>, cs: Registry, cs': Registry,
                                               taken: set<Position>, g: Ground, tick: u64)
    requires forall id | id in ids :: id in cs && id in cs' && cs[id] == cs'[id]
    ensures Planned(ids, cs, taken, g, tick) == Planned(ids, cs', taken, g, tick)
    decreases |ids|
  {
    if ids != [] {
      var (_, taken') := PlanOne(ids[0], cs[ids[0]], taken, g, tick);
      PlanReadsItsIdsOnly(ids[1..], cs, cs', taken', g, tick);
    }
  }

  lemma OthersAreTheRest(cs: Registry, id: CreatureId)
    requires id in cs && cs[id].active && Distinct(cs)
    ensures OtherTiles(cs, id) == ActiveTiles(cs) - {cs[id].position}
  {
    forall p | p in ActiveTiles(cs) - {cs[id].position} ensures p in OtherTiles(cs, id) {
      var other :| other in cs && cs[other].active && cs[other].position == p;
      assert other != id;
    }
  }

  /** The planner's turn for a creature is what the creature would do at once. */
  lemma TurnIsSerial(id: CreatureId, cs: Registry, g: Ground, tick: u64)
    requires id in cs && Distinct(cs)
    ensures var (b, taken') := PlanOne(id, cs[id], ActiveTiles(cs), g, tick);
      var after := SerialOne(id, cs, g, tick);
      && Distinct(after) && taken' == ActiveTiles(after)
      && Executed(cs, g, b.decisions) == Ok(after)
  {
    if cs[id].active {
      OthersAreTheRest(cs, id);
      assert cs[id].position in ActiveTiles(cs);
      match Pick(cs[id].position, id + tick, g, OtherTiles(cs, id)) {
        case None => assert ActiveTiles(cs) - {cs[id].position} + {cs[id].position} == ActiveTiles(cs);
        case Some(d) =>
          var to := Step(cs[id].position, d).value;
          MoveUpdatesTiles(cs, id, to);
          assert Moved(cs, g, id, d) == Ok(cs[id := cs[id].(position := to)]);
          assert [Decision(id, d)][1..] == [];
      }
    }
  }

  lemma {:induction false} ExecuteConcat(cs: Registry, g: Ground, ds: seq<Decision>, es: seq<Decision>)
    requires Executed(cs, g, ds).Ok?
    ensures Executed(cs, g, ds + es) == Executed(Executed(cs, g, ds).value, g, es)
    decreases |ds|
  {
    if ds == [] {
      assert ds + es == es;
    } else {
      assert (ds + es)[1..] == ds[1..] + es;
      ExecuteConcat(Moved(cs, g, ds[0].id, ds[0].direction).value, g, ds[1..], es);
    }
  }

  /**
   * A plan made against the cached picture is exactly what the creatures would do one by one: it
   * never fails when carried out, ends in the serial reference state, and decides or skips every
   * active creature.
   */
  lemma {:induction false} PlanIsSerial(ids: seq<CreatureId>, cs: Registry, g: Ground, tick: u64)
    requires NoRepeats(ids) && forall id | id in ids :: id in cs
    requires Distinct(cs)
    ensures var b := Planned(ids, cs, ActiveTiles(cs), g, tick);
      && Executed(cs, g, b.decisions) == Ok(Serial(ids, cs, g, tick))
      && |b.decisions| + b.skipped == CountActive(ids, cs)
    decreases |ids|
  {
    if ids != [] {
      var id, rest := ids[0], ids[1..];
      var after := SerialOne(id, cs, g, tick);
      TailNoRepeats(ids);
      TurnIsSerial(id, cs, g, tick);
      PlanIsSerial(rest, after, g, tick);
      PlanReadsItsIdsOnly(rest, cs, after, ActiveTiles(after), g, tick);
      CountReadsItsIdsOnly(rest, cs, after);
      var (b, taken') := PlanOne(id, cs[id], ActiveTiles(cs), g, tick);
      ExecuteConcat(cs, g, b.decisions, Planned(rest, cs, taken', g, tick).decisions);
    }
  }

  predicate AllIn(ds: seq<Decision>, ids: seq<CreatureId>) {
    forall i | 0 <= i < |ds| :: ds[i].id in ids
  }

  predicate OneEach(ds: seq<Decision>) {
    forall i, j | 0 <= i < j < |ds| :: ds[i].id != ds[j].id
  }

  /** Where a batch leaves each creature: one step on if it was decided, in place otherwise. */
  lemma {:induction false} ExecutedMovesExactlyTheDecided(cs: Registry, g: Ground, ds: seq<Decision>)
    requires OneEach(ds)
    requires Executed(cs, g, ds).Ok?
    ensures var after := Executed(cs, g, ds).value;
      && after.Keys == cs.Keys
      && (forall i | 0 <= i < |ds| :: ds[i].id in cs && Step(cs[ds[i].id].position, ds[i].direction).Ok?
            && after[ds[i].id] == cs[ds[i].id].(position := Step(cs[ds[i].id].position, ds[i].direction).value))
      && (forall id | id in cs && (forall i | 0 <= i < |ds| :: ds[i].id != id) :: after[id] == cs[id])
    decreases |ds|
  {
    if ds != [] {
      var next := Moved(cs, g, ds[0].id, ds[0].direction).value;
      var rest := ds[1..];
      ExecutedMovesExactlyTheDecided(next, g, rest);
      var after := Executed(next, g, rest).value;
      forall i | 0 < i < |ds|
        ensures ds[i].id in cs && Step(cs[ds[i].id].position, ds[i].direction).Ok?
        ensures after[ds[i].id] == cs[ds[i].id].(position := Step(cs[ds[i].id].position, ds[i].direction).value)
      {
        assert rest[i - 1] == ds[i];
      }
      forall id | id in cs && (forall i | 0 <= i < |ds| :: ds[i].id != id)
        ensures after[id] == cs[id]
      {
        assert ds[0].id != id;
        forall i | 0 <= i < |rest| ensures rest[i].id != id { assert rest[i] == ds[i + 1]; }
      }
      forall i | 0 <= i < |rest| ensures rest[i].id != ds[0].id { assert rest[i] == ds[i + 1]; }
    }
  }

  /** Decisions come in creature order, at most one for each creature asked about. */
  lemma {:induction false} DecisionsFollowIds(ids: seq<CreatureId>, cs: Registry, taken: set<Position>, g: Ground, tick: u64)
    requires NoRepeats(ids) && forall id | id in ids :: id in cs
    ensures var ds := Planned(ids, cs, taken, g, tick).decisions;
      AllIn(ds, ids) && OneEach(ds)
    decreases |ids|
  {
    if ids != [] {
      TailNoRepeats(ids);
      var (b, taken') := PlanOne(ids[0], cs[ids[0]], taken, g, tick);
      var later := Planned(ids[1..], cs, taken', g, tick);
      DecisionsFollowIds(ids[1..], cs, taken', g, tick);
      var ds := Extends(b, later).decisions;
      forall i | 0 <= i < |ds| ensures ds[i].id == ids[0] <==> i < |b.decisions| {
        assert i >= |b.decisions| ==> ds[i] == later.decisions[i - |b.decisions|];
      }
    }
  }

  // ----- what a batch decides, creature by creature -----

  /**
   * The batch decides for creature `i` what is right in the world as the earlier ones leave it: the first
   * passable side, or nothing if all four are blocked or the creature is inactive.
   */
  predicate DecidedInTurn(ds: seq<Decision>, ids: seq<CreatureId>, cs: Registry, g: Ground, tick: u64, i: nat)
    requires i < |ids| && forall id | id in ids :: id in cs
  {
    var id, now := ids[i], Serial(ids[..i], cs, g, tick);
    forall d :: Decision(id, d) in ds <==>
      cs[id].active && FirstPassable(cs[id].position, id + tick, g, OtherTiles(now, id), d)
  }

  /** The first creature's turn. */
  lemma FirstIsDecided(id: CreatureId, cs: Registry, g: Ground, tick: u64)
    requires id in cs && Distinct(cs)
    ensures forall d :: Decision(id, d) in PlanOne(id, cs[id], ActiveTiles(cs), g, tick).0.decisions <==>
      cs[id].active && FirstPassable(cs[id].position, id + tick, g, OtherTiles(cs, id), d)
  {
    if cs[id].active {
      OthersAreTheRest(cs, id);
      PickMeans(cs[id].position, id + tick, g, OtherTiles(cs, id));
    }
  }

  predicate Undecided(ds: seq<Decision>, id: CreatureId) {
    forall i | 0 <= i < |ds| :: ds[i].id != id
  }

  predicate Blocked(p: Position, g: Ground, taken: set<Position>) {
    forall d :: !Passable(p, d, g, taken)
  }

  /** So a creature is skipped exactly if all its sides are blocked at its turn. */
  lemma SkippedExactlyIfBlocked(ds: seq<Decision>, ids: seq<CreatureId>, cs: Registry, g: Ground, tick: u64, i: nat)
    requires i < |ids| && (forall id | id in ids :: id in cs) && DecidedInTurn(ds, ids, cs, g, tick, i)
    requires cs[ids[i]].active
    ensures Undecided(ds, ids[i]) <==> Blocked(cs[ids[i]].position, g, OtherTiles(Serial(ids[..i], cs, g, tick), ids[i]))
  {
    var id, p, taken := ids[i], cs[ids[i]].position, OtherTiles(Serial(ids[..i], cs, g, tick), ids[i]);
    var chosen := Pick(p, id + tick, g, taken);
    PickMeans(p, id + tick, g, taken);
    if chosen.Some? {
      assert FirstPassable(p, id + tick, g, taken, chosen.value);
      assert Decision(id, chosen.value) in ds;
    } else {
      forall j | 0 <= j < |ds| ensures ds[j].id != id {
        assert ds[j] == Decision(ds[j].id, ds[j].direction) && ds[j] in ds;
      }
    }
  }

  lemma DecidedAtOnce(ds: seq<Decision>, later: seq<Decision>, ids: seq<CreatureId>, cs: Registry, g: Ground, tick: u64)
    requires ids != [] && NoRepeats(ids) && (forall id | id in ids :: id in cs) && Distinct(cs)
    requires AllIn(later, ids[1..])
    requires ds == PlanOne(ids[0], cs[ids[0]], ActiveTiles(cs), g, tick).0.decisions
    ensures DecidedInTurn(ds + later, ids, cs, g, tick, 0)
  {
    assert ids[..0] == [];
    TailNoRepeats(ids);
    FirstIsDecided(ids[0], cs, g, tick);
    forall d ensures Decision(ids[0], d) !in later {}
  }

  lemma DecidedLater(first: seq<Decision>, later: seq<Decision>, ids: seq<CreatureId>, cs: Registry, g: Ground, tick: u64, i: nat)
    requires NoRepeats(ids) && (forall id | id in ids :: id in cs) && 0 < i < |ids|
    requires forall x | x in first :: x.id == ids[0]
    requires DecidedInTurn(later, ids[1..], SerialOne(ids[0], cs, g, tick), g, tick, i - 1)
    ensures DecidedInTurn(first + later, ids, cs, g, tick, i)
  {
    var rest, front := ids[1..], ids[..i];
    assert front[0] == ids[0] && front[1..] == rest[..i - 1] && rest[i - 1] == ids[i];
    assert Serial(front, cs, g, tick) == Serial(rest[..i - 1], SerialOne(ids[0], cs, g, tick), g, tick);
    forall d ensures Decision(ids[i], d) !in first {}
  }

  lemma PlanSplits(ids: seq<CreatureId>, cs: Registry, g: Ground, tick: u64)
    requires ids != [] && NoRepeats(ids) && (forall id | id in ids :: id in cs) && Distinct(cs)
    ensures var after := SerialOne(ids[0], cs, g, tick);
      && Distinct(after)
      && Planned(ids, cs, ActiveTiles(cs), g, tick).decisions
           == PlanOne(ids[0], cs[ids[0]], ActiveTiles(cs), g, tick).0.decisions
              + Planned(ids[1..], after, ActiveTiles(after), g, tick).decisions
  {
    var id, rest := ids[0], ids[1..];
    var after := SerialOne(id, cs, g, tick);
    TailNoRepeats(ids);
    TurnIsSerial(id, cs, g, tick);
    PlanReadsItsIdsOnly(rest, cs, after, ActiveTiles(after), g, tick);
  }

  /** A planned batch decides for every creature in its turn. */
  lemma {:induction false} PlanDecidesInTurn(ids: seq<CreatureId>, cs: Registry, g: Ground, tick: u64, i: nat)
    requires NoRepeats(ids) && (forall id | id in ids :: id in cs) && i < |ids|
    requires Distinct(cs)
    ensures DecidedInTurn(Planned(ids, cs, ActiveTiles(cs), g, tick).decisions, ids, cs, g, tick, i)
    decreases |ids|
  {
    var after := SerialOne(ids[0], cs, g, tick);
    var first := PlanOne(ids[0], cs[ids[0]], ActiveTiles(cs), g, tick).0.decisions;
    var later := Planned(ids[1..], after, ActiveTiles(after), g, tick).decisions;
    TailNoRepeats(ids);
    PlanSplits(ids, cs, g, tick);
    if i == 0 {
      DecisionsFollowIds(ids[1..], after, ActiveTiles(after), g, tick);
      DecidedAtOnce(first, later, ids, cs, g, tick);
    } else {
      PlanDecidesInTurn(ids[1..], after, g, tick, i - 1);
      DecidedLater(first, later, ids, cs, g, tick, i);
    }
  }

  predicate AllDecided(ds: seq<Decision>, ids: seq<CreatureId>, cs: Registry, g: Ground, tick: u64)
    requires forall id | id in ids :: id in cs
  {
    forall i | 0 <= i < |ids| :: DecidedInTurn(ds, ids, cs, g, tick, i)
  }

  lemma PlanDecidesAll(ids: seq<CreatureId>, cs: Registry, g: Ground, tick: u64)
    requires NoRepeats(ids) && (forall id | id in ids :: id in cs) && Distinct(cs)
    ensures AllDecided(Planned(ids, cs, ActiveTiles(cs), g, tick).decisions, ids, cs, g, tick)
  {
    forall i | 0 <= i < |ids| ensures DecidedInTurn(Planned(ids, cs, ActiveTiles(cs), g, tick).decisions, ids, cs, g, tick, i) {
      PlanDecidesInTurn(ids, cs, g, tick, i);
    }
  }

  // ----- why creatures have to stand apart -----

  function Dummy(at: Position): Creature {
    Creature("x", false, at, 100, at, None, true, 100, 0, None, None, 0, None, 0, false, 0, None)
  }

  const P := Position(5, 5, 7)
  const EAST_OF_P := Position(6, 5, 7)
  const SOUTH_OF_P := Position(5, 6, 7)
  const SHARED: Registry := map[1 := Dummy(P), 2 := Dummy(SOUTH_OF_P), 3 := Dummy(P)]
  const YARD := Ground({P, EAST_OF_P}, {})

  lemma FirstLeaves()
    ensures PlanOne(1, SHARED[1], {P, SOUTH_OF_P}, YARD, 0) == (Batch([Decision(1, East)], 0), {SOUTH_OF_P, EAST_OF_P})
  {
    assert {P, SOUTH_OF_P} - {P} == {SOUTH_OF_P};
    assert {SOUTH_OF_P} + {EAST_OF_P} == {SOUTH_OF_P, EAST_OF_P};
    assert Rotated(1)[0] == East;
    assert Step(P, East) == Ok(EAST_OF_P);
  }

  lemma SecondFollows()
    ensures PlanOne(2, SHARED[2], {SOUTH_OF_P, EAST_OF_P}, YARD, 0).0 == Batch([Decision(2, North)], 0)
  {
    var left := {SOUTH_OF_P, EAST_OF_P} - {SOUTH_OF_P};
    assert left == {EAST_OF_P};
    var ds := Rotated(2);
    assert ds[0] == South && ds[1..][0] == West && ds[1..][1..][0] == North;
    assert Step(SOUTH_OF_P, South).value !in YARD.walkable && Step(SOUTH_OF_P, West).value !in YARD.walkable;
    assert Step(SOUTH_OF_P, North) == Ok(P);
    assert FirstFree(SOUTH_OF_P, ds[1..][1..], YARD.walkable, YARD.players + left) == Some(North);
    assert FirstFree(SOUTH_OF_P, ds[1..], YARD.walkable, YARD.players + left) == Some(North);
  }

  /**
   * A collection that places two creatures on one tile breaks the agreement: here the planner lets the
   * second creature take the tile the first one leaves, although the third still stands there.
   */
  lemma SharedTileBreaksThePlan()
    ensures SHARED.Keys == {1, 2, 3} && !Distinct(SHARED)
    ensures Executed(SHARED, YARD, Planned([1, 2, 3], SHARED, ActiveTiles(SHARED), YARD, 0).decisions).Err?
  {
    var ids: seq<CreatureId> := [1, 2, 3];
    assert SHARED[1].position == P && SHARED[2].position == SOUTH_OF_P && SHARED[3].position == P;
    assert ActiveTiles(SHARED) == {P, SOUTH_OF_P};
    FirstLeaves();
    SecondFollows();
    assert ids[1..] == [2, 3] && ids[1..][1..] == [3];
    var next := SHARED[1 := SHARED[1].(position := EAST_OF_P)];
    assert Moved(next, YARD, 2, North).Err? by {
      assert next[3].position in OtherTiles(next, 2);
    }
    var rest := Planned(ids[1..], SHARED, {SOUTH_OF_P, EAST_OF_P}, YARD, 0);
    assert rest.decisions[0] == Decision(2, North);
    var all := Planned(ids, SHARED, ActiveTiles(SHARED), YARD, 0).decisions;
    assert all == [Decision(1, East)] + rest.decisions && all[1..] == rest.decisions;
  }
}
