/**
 * Runs of world commands, and what no run can break: the index is right, players stay off creatures,
 * and tiles are shared only after the commands that allow it.
 */
module Runs {
  import opened Prelude
  import opened Geometry
  import opened Creatures
  import opened Respawn
  import opened Restart
  import opened Follow
  import opened WorldRules
  import opened Worlds

  datatype Command =
    | Install(es: seq<Listing>)
    | Summon(name: string, near: Position)
    | Despawn(creature: CreatureId)
    | StepCreature(creature: CreatureId, direction: Direction)
    | Deactivate(creature: CreatureId)
    | SetHealth(creature: CreatureId, health: u8)
    | Sweep(dueOnly: bool)
    | Policy(enabled: bool)
    | SelectTarget(creature: CreatureId, range: u8)
    | StepToward(creature: CreatureId, maxDetour: u8)
    | Strike(creature: CreatureId, fate: Fate)
    | HitCreature(player: PlayerId, creature: CreatureId, damage: u16, ready: bool)
    | Restore(records: seq<Record>)
    | Join(player: PlayerId, name: string, at: Position)
    | Leave(player: PlayerId)
    | Walk(player: PlayerId, to: Position)
    | Stride(player: PlayerId, direction: Direction)
    | Teleport(player: PlayerId, to: Position)
    | SetFollow(player: PlayerId, target: Option<PlayerId>)
    | FollowAll
    | Die(player: PlayerId, temple: Option<Position>)
    | Respawn(player: PlayerId)
    | Hydrate(player: PlayerId, state: Lifecycle)
    | Elapse(seconds: u16)

  /** Installs are the only commands that can put two creatures on one tile. */
  predicate PlacesApart(c: Command) {
    c.Install? ==> DistinctlyPlaced(c.es)
  }

  /** Raw moves are the only commands that can put two players on one tile. */
  predicate LooksAtPlayers(c: Command) {
    !c.Walk? && !c.Stride?
  }

  predicate OnCreatures(c: Command) {
    c.Install? || c.Summon? || c.Despawn? || c.StepCreature? || c.Deactivate? || c.SetHealth? || c.Sweep?
    || c.Policy? || c.SelectTarget? || c.StepToward? || c.Strike? || c.HitCreature? || c.Restore?
  }

  /** Only a despawn takes a creature out of the registry, apart from an install. */
  function GoneAfter(c: Command): set<CreatureId> {
    if c.Despawn? then {c.creature} else {}
  }

  method PerformOnCreatures(w: World, walkable: set<Position>, c: Command)
    requires w.Valid() && OnCreatures(c)
    modifies w`creatures, w`occupied, w`lifecycles, w`follows
    ensures w.Valid()
    ensures old(Distinct(w.creatures)) && PlacesApart(c) ==> Distinct(w.creatures)
    ensures !c.Install? ==> Carried(old(w.creatures), w.creatures, walkable, GoneAfter(c))
  {
    if ChangesWhoIsThere(c) {
      PerformOnRegistry(w, walkable, c);
    } else if MovesCreatures(c) {
      PerformMoves(w, walkable, c);
    } else {
      PerformInPlace(w, walkable, c);
    }
  }

  predicate ChangesWhoIsThere(c: Command) {
    c.Install? || c.Summon? || c.Despawn? || c.Restore?
  }

  predicate MovesCreatures(c: Command) {
    c.StepCreature? || c.Sweep? || c.Policy? || c.StepToward?
  }

  method PerformOnRegistry(w: World, walkable: set<Position>, c: Command)
    requires w.Valid() && ChangesWhoIsThere(c)
    modifies w`creatures, w`occupied
    ensures w.Valid()
    ensures old(Distinct(w.creatures)) && PlacesApart(c) ==> Distinct(w.creatures)
    ensures !c.Install? ==> Carried(old(w.creatures), w.creatures, walkable, GoneAfter(c))
  {
    match c
    case Install(es) => var _ := w.Install(es);
    case Summon(name, near) => var _, _, _ := w.SpawnDynamic(name, near);
    case Despawn(id) => var _ := w.DespawnDynamic(id);
    case Restore(records) =>
      var restored := w.RestoreRuntime(records);
      if restored.Ok? {
        RestoreIsCarried(records, old(w.creatures), w.tick, walkable);
      }
  }

  method PerformMoves(w: World, walkable: set<Position>, c: Command)
    requires w.Valid() && MovesCreatures(c)
    modifies w`creatures, w`occupied
    ensures w.Valid()
    ensures old(Distinct(w.creatures)) ==> Distinct(w.creatures)
    ensures Carried(old(w.creatures), w.creatures, walkable, {})
  {
    match c
    case StepCreature(id, d) =>
      StepIsCarriedOn(w.creatures, w.creatures, Ground(walkable, PlayerTiles(w.players)), id, d);
      var _ := w.MoveCreature(id, d, walkable);
    case Sweep(dueOnly) =>
      ghost var start, call := Pass(w.creatures, w.occupied, 0, 0, 0), Call(PlayerTiles(w.players), w.tick, dueOnly);
      var end := w.Sweep(dueOnly);
      SweepIsCarried(start, end, call, walkable);
    case Policy(enabled) => var _ := w.ApplyPolicy(enabled, walkable);
    case StepToward(id, maxDetour) =>
      var stepped := w.StepToward(id, walkable, maxDetour);
      if stepped.Ok? {
        RightStepIsCarried(old(w.creatures), w.creatures, w.players, w.lifecycles, id, walkable, maxDetour, stepped.value);
      }
  }

  method PerformInPlace(w: World, walkable: set<Position>, c: Command)
    requires w.Valid() && OnCreatures(c) && !ChangesWhoIsThere(c) && !MovesCreatures(c)
    modifies w`creatures, w`occupied, w`lifecycles, w`follows
    ensures w.Valid()
    ensures old(Distinct(w.creatures)) ==> Distinct(w.creatures)
    ensures Carried(old(w.creatures), w.creatures, walkable, {})
  {
    if c.Strike? || c.HitCreature? {
      PerformFight(w, walkable, c);
    } else {
      PerformUpkeep(w, walkable, c);
    }
  }

  method PerformUpkeep(w: World, walkable: set<Position>, c: Command)
    requires w.Valid() && (c.Deactivate? || c.SetHealth? || c.SelectTarget?)
    modifies w`creatures, w`occupied
    ensures w.Valid()
    ensures old(Distinct(w.creatures)) ==> Distinct(w.creatures)
    ensures Carried(old(w.creatures), w.creatures, walkable, {})
  {
    match c
    case Deactivate(id) => var _ := w.Deactivate(id);
    case SetHealth(id, health) => var _ := w.SetHealth(id, health);
    case SelectTarget(id, range) => var _ := w.SelectTarget(id, range);
  }

  method PerformFight(w: World, walkable: set<Position>, c: Command)
    requires w.Valid() && (c.Strike? || c.HitCreature?)
    modifies w`creatures, w`occupied, w`lifecycles, w`follows
    ensures w.Valid()
    ensures old(Distinct(w.creatures)) ==> Distinct(w.creatures)
    ensures Carried(old(w.creatures), w.creatures, walkable, {})
  {
    match c
    case Strike(id, fate) =>
      if id in w.creatures {
        FightIsCarried(w.creatures, id, Struck(w.creatures[id], w.players, w.lifecycles, w.tick, fate), walkable);
      }
      var _ := w.Strike(id, fate);
    case HitCreature(id, creature, damage, ready) =>
      if creature in w.creatures {
        FightIsCarried(w.creatures, creature, Wounded(w.creatures[creature], damage, w.tick), walkable);
      }
      var _ := w.HitCreature(id, creature, damage, ready);
  }

  predicate MovesPlayers(c: Command) {
    c.Join? || c.Leave? || c.Walk? || c.Stride? || c.Teleport? || c.FollowAll? || c.Respawn?
  }

  method PerformOnPlayers(w: World, walkable: set<Position>, c: Command)
    requires w.Valid() && !OnCreatures(c)
    modifies w
    ensures w.Valid()
    ensures old(Distinct(w.creatures)) ==> Distinct(w.creatures)
    ensures old(Spread(w.players)) && LooksAtPlayers(c) ==> Spread(w.players)
    ensures Carried(old(w.creatures), w.creatures, walkable, {})
  {
    if MovesPlayers(c) {
      PerformOnTheCrowd(w, walkable, c);
    } else {
      PerformOnRecords(w, c);
    }
  }

  method PerformOnTheCrowd(w: World, walkable: set<Position>, c: Command)
    requires w.Valid() && MovesPlayers(c)
    modifies w`players, w`lifecycles, w`follows, w`creatures
    ensures w.Valid()
    ensures old(Distinct(w.creatures)) ==> Distinct(w.creatures)
    ensures old(Spread(w.players)) && LooksAtPlayers(c) ==> Spread(w.players)
    ensures Carried(old(w.creatures), w.creatures, walkable, {})
  {
    match c
    case Join(id, name, at) => var _ := w.AddPlayer(id, name, at);
    case Leave(id) => var _ := w.RemovePlayer(id);
    case Walk(id, to) => var _ := w.MovePlayer(id, to);
    case Stride(id, d) => var _ := w.MovePlayerCardinal(id, d);
    case Teleport(id, to) => var _ := w.Teleport(id, to);
    case FollowAll => var _ := w.FollowPass(walkable);
    case Respawn(id) => var _ := w.Respawn(id);
  }

  /** What else happens to players leaves everybody where he is. */
  method PerformOnRecords(w: World, c: Command)
    requires w.Valid() && !OnCreatures(c) && !MovesPlayers(c)
    modifies w`lifecycles, w`follows, w`tick
    ensures w.Valid()
  {
    match c
    case SetFollow(id, target) => var _ := w.SetFollow(id, target);
    case Die(id, temple) => var _ := w.Die(id, temple);
    case Hydrate(id, state) => var _ := w.Hydrate(id, state);
    case Elapse(seconds) => w.AdvanceTicks(seconds);
  }

  /**
   * Every run of commands from an empty world, whatever its outcome: the cached index is exactly the
   * tiles of the active creatures and no player stands on one of them; two active creatures share a
   * tile only if some installed collection placed two on one tile, and two players only if one made a
   * raw move.
   */
  method Run(walkable: set<Position>, commands: seq<Command>) returns (w: World)
    ensures w.occupied == ActiveTiles(w.creatures)
    ensures PlayerTiles(w.players) !! ActiveTiles(w.creatures)
    ensures w.lifecycles.Keys == w.players.Keys
    ensures (forall c | c in commands :: PlacesApart(c)) ==> Distinct(w.creatures)
    ensures (forall c | c in commands :: LooksAtPlayers(c)) ==> Spread(w.players)
  {
    w := new World();
    for i := 0 to |commands|
      invariant w.Valid() && fresh(w)
      invariant (forall c | c in commands :: PlacesApart(c)) ==> Distinct(w.creatures)
      invariant (forall c | c in commands :: LooksAtPlayers(c)) ==> Spread(w.players)
    {
      assert commands[i] in commands;
      if OnCreatures(commands[i]) {
        PerformOnCreatures(w, walkable, commands[i]);
      } else {
        PerformOnPlayers(w, walkable, commands[i]);
      }
    }
  }
}
