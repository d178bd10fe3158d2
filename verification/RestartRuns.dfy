module RestartRuns {
  // Restarts after whole runs: what a world that was installed from a collection resumes, and what it cannot.
  import opened Prelude
  import opened Geometry
  import opened Creatures
  import opened Respawn
  import opened Restart
  import opened Follow
  import opened WorldRules
  import opened Worlds
  import opened Runs

  predicate Lists(es: seq<Listing>, id: CreatureId) {
    exists i :: 0 <= i < |es| && es[i].id == id
  }

  /** No further install, and no despawn of a creature of the collection. */
  predicate LeavesListed(es: seq<Listing>, c: Command) {
    !c.Install? && (c.Despawn? ==> !Lists(es, c.creature))
  }

  lemma FreshInstall(es: seq<Listing>, tick: u64)
    requires UniqueListings(es)
    ensures NobodyOnOrigin(Catalogued(es, tick))
    ensures forall id :: id in Catalogued(es, tick) <==> Lists(es, id)
  {
    var cs := Catalogued(es, tick);
    CataloguedHolds(es, tick);
    forall id | id in cs && cs[id].active ensures cs[id].position != ORIGIN {
      var i :| 0 <= i < |es| && es[i].id == id;
      assert cs[id] == Installed(es[i], tick);
    }
  }

  /** Whoever descends from an install agrees with it on intervals, and nobody strays where the origin is no ground. */
  lemma CarriedFromInstall(es: seq<Listing>, tick: u64, now: Registry, walkable: set<Position>)
    requires UniqueListings(es) && Carried(Catalogued(es, tick), now, walkable, {})
    ensures SameTraits(now, Catalogued(es, tick))
    ensures ORIGIN !in walkable ==> Resumed(now, Catalogued(es, tick))
  {
    var cs := Catalogued(es, tick);
    CataloguedHolds(es, tick);
    forall id | id in cs && Persisted(cs[id]) && ORIGIN !in walkable ensures Recorded(now, id) {
      var i :| 0 <= i < |es| && es[i].id == id;
      assert cs[id] == Installed(es[i], tick) && Inherits(cs[id], now[id], walkable);
    }
  }

  /** A world that installs a collection, and then obeys any commands that leave the collection in place. */
  method Session(walkable: set<Position>, es: seq<Listing>, commands: seq<Command>) returns (w: World)
    requires Installable(es, {}) && forall c | c in commands :: LeavesListed(es, c)
    ensures fresh(w) && w.Valid()
    ensures Carried(Catalogued(es, 0), w.creatures, walkable, {})
    ensures DistinctlyPlaced(es) ==> Distinct(w.creatures)
  {
    w := new World();
    var installed := w.Install(es);
    ghost var cs := Catalogued(es, 0);
    FreshInstall(es, 0);
    for i := 0 to |commands|
      invariant w.Valid() && fresh(w)
      invariant Carried(cs, w.creatures, walkable, {})
      invariant DistinctlyPlaced(es) ==> Distinct(w.creatures)
    {
      var c := commands[i];
      assert c in commands && LeavesListed(es, c);
      ghost var before := w.creatures;
      if OnCreatures(c) {
        PerformOnCreatures(w, walkable, c);
      } else {
        PerformOnPlayers(w, walkable, c);
      }
      CarriedOn(cs, before, w.creatures, walkable, GoneAfter(c));
    }
  }

  /**
   * A restart after any run: the world is saved, another one boots from the same collection, restores, and
   * is saved in turn. Where creatures were placed apart and cannot walk to the origin, the restore succeeds
   * exactly when no listed creature waits with a melee interval, and the next snapshot is the records of the
   * listed creatures; it is the whole snapshot exactly when there were no others.
   */
  method Reboot(walkable: set<Position>, es: seq<Listing>, commands: seq<Command>)
    returns (saved: World, booted: World, rs: seq<Record>, restored: Result<nat>, next: seq<Record>)
    requires Installable(es, {}) && forall c | c in commands :: LeavesListed(es, c)
    ensures rs == Snapshot(Ids(saved.creatures), saved.creatures, saved.tick)
    ensures fresh(saved) && fresh(booted) && next == Snapshot(Ids(booted.creatures), booted.creatures, booted.tick)
    ensures restored.Ok? <==>
      !MeleeWhileAway(saved.creatures, Catalogued(es, 0)) && Fits(saved.creatures, Catalogued(es, 0), {})
    ensures DistinctlyPlaced(es) && Resumed(saved.creatures, Catalogued(es, 0)) ==>
      (restored.Ok? <==> !MeleeWhileAway(saved.creatures, Catalogued(es, 0)))
    ensures ORIGIN !in walkable ==> Resumed(saved.creatures, Catalogued(es, 0))
    ensures restored.Ok? ==>
      && (next == KnownOf(rs, Catalogued(es, 0)) <==> Resumed(saved.creatures, Catalogued(es, 0)))
      && (next == rs <==> Resumed(saved.creatures, Catalogued(es, 0)) && Whole(saved.creatures, Catalogued(es, 0)))
    ensures restored.Err? ==> booted.creatures == Catalogued(es, 0)
  {
    ghost var cs := Catalogued(es, 0);
    saved := Session(walkable, es, commands);
    rs := saved.TakeSnapshot();
    RestartIsExact(es, saved.creatures, saved.tick, walkable);
    booted, restored, next := Boot(es, rs);
  }

  /** A fresh world installs the collection, restores the records, and is saved. */
  method Boot(es: seq<Listing>, rs: seq<Record>) returns (booted: World, restored: Result<nat>, next: seq<Record>)
    requires Installable(es, {})
    ensures fresh(booted)
    ensures restored.Ok? <==> Restorable(rs, Catalogued(es, 0), {})
    ensures booted.creatures == if restored.Ok? then Restored(rs, Catalogued(es, 0), 0) else Catalogued(es, 0)
    ensures booted.tick == 0 && next == Snapshot(Ids(booted.creatures), booted.creatures, 0)
  {
    booted := new World();
    assert PlayerTiles(booted.players) == {};
    var installed := booted.Install(es);
    restored := booted.RestoreRuntime(rs);
    next := booted.TakeSnapshot();
  }

  lemma RestartIsExact(es: seq<Listing>, saved: Registry, tick: u64, walkable: set<Position>)
    requires Installable(es, {}) && Timed(saved, tick) && Carried(Catalogued(es, 0), saved, walkable, {})
    requires DistinctlyPlaced(es) ==> Distinct(saved)
    ensures var rs, cs := Snapshot(Ids(saved), saved, tick), Catalogued(es, 0);
      && (Restorable(rs, cs, {}) <==> !MeleeWhileAway(saved, cs) && Fits(saved, cs, {}))
      && (DistinctlyPlaced(es) && Resumed(saved, cs) ==> Fits(saved, cs, {}))
      && (ORIGIN !in walkable ==> Resumed(saved, cs))
      && (Restorable(rs, cs, {}) ==>
            var after := Restored(rs, cs, 0);
            && (Snapshot(Ids(after), after, 0) == KnownOf(rs, cs) <==> Resumed(saved, cs))
            && (Snapshot(Ids(after), after, 0) == rs <==> Resumed(saved, cs) && Whole(saved, cs)))
  {
    var cs := Catalogued(es, 0);
    FreshInstall(es, 0);
    CarriedFromInstall(es, 0, saved, walkable);
    RestartRoundTrip(saved, tick, cs, 0, {});
    if DistinctlyPlaced(es) && Resumed(saved, cs) {
      OrderlyWorldsFit(saved, cs, {});
    }
  }

  // ----- inputs on which a restart does not resume everything -----

  const MEADOW := Position(5, 5, 7)
  const BROOK := Position(6, 5, 7)

  /** A creature that comes back after ten seconds and strikes every two. */
  const RAT := Listing(1, "rat", false, MEADOW, 100, None, 10, Some(2000), true)
  /** A template for summons, which no install places. */
  const DEMON := Listing(2, "demon", false, ORIGIN, 100, None, 0, None, false)

  const RATS: Registry := map[1 := Installed(RAT, 0)]
  const DEMONS: Registry := map[2 := Installed(DEMON, 0)]

  lemma ExamplesInstall()
    ensures Installable([RAT], {}) && Catalogued([RAT], 0) == RATS
    ensures Installable([DEMON], {}) && Catalogued([DEMON], 0) == DEMONS
  {
    assert [RAT][..0] == [] && [DEMON][..0] == [];
    assert RAT.name[0] == 'r' && DEMON.name[0] == 'd' && !White('r') && !White('d');
    assert 'r' in RAT.name && 'd' in DEMON.name;
  }

  /** A rat is put away, to come back later: its record names a melee interval, and no restore accepts it. */
  lemma WaitingRatIsRefused()
    ensures var saved := RATS[1 := PutAway(RATS[1], 0)];
      MeleeWhileAway(saved, RATS) && !Restorable(Snapshot(Ids(saved), saved, 0), RATS, {})
  {
    var saved := RATS[1 := PutAway(RATS[1], 0)];
    assert Recorded(saved, 1);
    RestartRoundTrip(saved, 0, RATS, 0, {});
  }

  /** A summon is saved and then skipped: the restore succeeds, and the next snapshot is without it. */
  lemma SummonIsNotResumed()
    ensures var saved := RATS[DYNAMIC_ID_BASE := Summoned(RATS[1], BROOK, 0)];
      var rs := Snapshot(Ids(saved), saved, 0);
      && Restorable(rs, RATS, {})
      && var after := Restored(rs, RATS, 0);
         Snapshot(Ids(after), after, 0) == KnownOf(rs, RATS) != rs
  {
    var saved := RATS[DYNAMIC_ID_BASE := Summoned(RATS[1], BROOK, 0)];
    assert saved[1] == RATS[1] && Recorded(saved, 1) && RATS.Keys == {1};
    assert Resumed(saved, RATS) && Fits(saved, RATS, {}) && !MeleeWhileAway(saved, RATS);
    assert !Whole(saved, RATS) by {
      assert Persisted(saved[DYNAMIC_ID_BASE]) && DYNAMIC_ID_BASE !in RATS;
    }
    RestartRoundTrip(saved, 0, RATS, 0, {});
  }

  /** The same summon put away: it waits with a melee interval, and the restore succeeds, since nobody knows it. */
  lemma WaitingSummonIsAccepted()
    ensures var saved := RATS[DYNAMIC_ID_BASE := PutAway(Summoned(RATS[1], BROOK, 0), 0)];
      var waiting := saved[DYNAMIC_ID_BASE];
      && !waiting.active && waiting.cooldown.Some? && Persisted(waiting)
      && Restorable(Snapshot(Ids(saved), saved, 0), RATS, {})
  {
    var saved := RATS[DYNAMIC_ID_BASE := PutAway(Summoned(RATS[1], BROOK, 0), 0)];
    RestartRoundTrip(saved, 0, RATS, 0, {});
  }

  /** A full sweep wakes the template on the origin: it is saved there, skipped, and dormant again. */
  lemma WokenTemplateIsNotResumed()
    ensures var saved := Visit(Pass(DEMONS, {}, 0, 0, 0), 2, Call({}, 0, false)).cs;
      var rs := Snapshot(Ids(saved), saved, 0);
      && saved[2].active && saved[2].position == ORIGIN
      && Restorable(rs, DEMONS, {})
      && var after := Restored(rs, DEMONS, 0);
         Snapshot(Ids(after), after, 0) == KnownOf(rs, DEMONS) != rs
  {
    var saved := Visit(Pass(DEMONS, {}, 0, 0, 0), 2, Call({}, 0, false)).cs;
    assert saved == DEMONS[2 := Awake(DEMONS[2], 0)];
    RestartRoundTrip(saved, 0, DEMONS, 0, {});
    assert Persisted(saved[2]);
  }

  /** The rat has walked onto the origin, and another stands where it came from: the restore is refused. */
  lemma StrayRatBlocksItsOwnPlace()
    ensures var other := Installed(RAT.(id := 3, position := BROOK), 0);
      var booted := RATS[3 := other];
      var saved := map[1 := RATS[1].(position := ORIGIN), 3 := other.(position := MEADOW)];
      && !MeleeWhileAway(saved, booted) && !Restorable(Snapshot(Ids(saved), saved, 0), booted, {})
  {
    var other := Installed(RAT.(id := 3, position := BROOK), 0);
    var booted := RATS[3 := other];
    var saved := map[1 := RATS[1].(position := ORIGIN), 3 := other.(position := MEADOW)];
    assert Recorded(saved, 3) && !Recorded(saved, 1);
    assert Prospect(saved, booted, 1) == Some(MEADOW);
    RestartRoundTrip(saved, 0, booted, 0, {});
  }
}
