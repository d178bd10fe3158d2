/** What becomes of one creature over time: its blows, wounds, absences, returns and restarts. */
module Lifetimes {
  import opened Prelude
  import opened Geometry
  import opened Creatures
  import opened Restart
  import opened Respawn
  import opened Follow
  import opened WorldRules

  // ----- attack turns -----

  predicate HasLivingTarget(c: Creature, players: Crowd, lifecycles: map<PlayerId, Lifecycle>) {
    && c.target.Some? && c.target.value in players
    && (c.target.value in lifecycles ==> !lifecycles[c.target.value].dead)
  }

  /**
   * A due creature forgets a target that is gone or dead, and a killed one. A hit counts once if the
   * creature declares damage, and nothing but target, deadline and count ever changes.
   */
  lemma StrikeMeans(c: Creature, players: Crowd, lifecycles: map<PlayerId, Lifecycle>, tick: u64, fate: Fate)
    ensures var after, hits := Struck(c, players, lifecycles, tick, fate), Hits(c, players, lifecycles, tick);
      && after == c.(target := after.target, nextMelee := after.nextMelee, sequence := after.sequence)
      && (hits <==> c.nextMelee <= tick && !c.isNpc && HasLivingTarget(c, players, lifecycles)
                    && Adjacent(c.position, players[c.target.value]))
      && (after.target == c.target || after.target == None)
      && (c.target.Some? ==>
            (after.target == None <==>
               || (c.nextMelee <= tick && (c.isNpc || !HasLivingTarget(c, players, lifecycles)))
               || (hits && fate.Dies?)))
      && after.sequence
         == c.sequence + (if hits && c.declaresDamage && c.sequence < 0xFFFF_FFFF_FFFF_FFFF then 1 else 0)
      && after.nextMelee
         == (if !hits || fate.Homeless? || c.cooldown.None? then c.nextMelee
             else if tick + c.cooldown.value > 0xFFFF_FFFF_FFFF_FFFF then 0xFFFF_FFFF_FFFF_FFFF
             else tick + c.cooldown.value)
  {
  }

  /** One hit for each cooldown: the next one comes exactly when it has passed, everything else being equal. */
  lemma HitsOncePerCooldown(c: Creature, players: Crowd, lifecycles: map<PlayerId, Lifecycle>, tick: u64, later: u64)
    requires Hits(c, players, lifecycles, tick)
    requires c.cooldown.Some? && tick + c.cooldown.value < 0x1_0000_0000_0000_0000
    ensures Hits(Struck(c, players, lifecycles, tick, Survives), players, lifecycles, later)
       <==> tick + c.cooldown.value <= later
  {
  }

  /** A blow takes away its points and no more than there are; losing the last of them puts the creature away. */
  lemma WoundMeans(c: Creature, damage: u16, tick: u64)
    ensures var after := Wounded(c, damage, tick);
      && after.health == (if damage < c.health then c.health - damage else 0)
      && (after.active <==> c.active && (damage < c.health || c.health == 0))
      && after == c.(health := after.health, active := after.active, target := after.target,
                     inactiveSince := after.inactiveSince, due := after.due)
      && (damage < c.health || c.health == 0 ==> after == c.(health := after.health))
  {
  }

  // ----- away and back -----

  /**
   * A creature that is put away comes up in the timed pass exactly after its interval, and never
   * without one; the unconditional reset brings it up at once.
   */
  lemma AwayForOneInterval(c: Creature, players: set<Position>, tick: u64, now: u64)
    requires c.active && tick + c.interval < 0x1_0000_0000_0000_0000
    ensures var away := PutAway(c, tick);
      && !away.active && away.target == None && away.inactiveSince == Some(tick)
      && away.position == c.position && away.health == c.health && away.spawn == c.spawn
      && (Attempted(away, Call(players, now, true)) <==> c.interval > 0 && tick + c.interval <= now)
      && Attempted(away, Call(players, now, false))
  {
  }

  /** It comes back at its spawn with full health, and nothing is left of its absence. */
  lemma BackAtTheSpawn(c: Creature, tick: u64)
    ensures var back := Awake(c, tick);
      && back.active && back.position == c.spawn && back.health == c.fullHealth && back.activatedAt == tick
      && back.inactiveSince == None && back.due == None
      && back == c.(active := true, position := back.position, health := back.health, activatedAt := tick,
                    inactiveSince := None, due := None)
  {
  }

  /** One whose place is blocked waits exactly one more interval, and in a reset nothing happens to it. */
  lemma BlockedForOneInterval(c: Creature, players: set<Position>, tick: u64, now: u64)
    requires !c.active && tick + c.interval < 0x1_0000_0000_0000_0000
    ensures Attempted(Deferred(c, Call(players, tick, true)), Call(players, now, true)) <==> tick + c.interval <= now
    ensures Deferred(c, Call(players, tick, true)) == c.(due := Deferred(c, Call(players, tick, true)).due)
    ensures Deferred(c, Call(players, tick, false)) == c
  {
  }

  /** A player blocks a creature on its spawn tile, and in the timed pass anywhere in the square of its area. */
  lemma PlayerBlocksMeans(c: Creature, call: Call)
    ensures PlayerBlocks(c, call) <==> exists p ::
      && p in call.players
      && (p == c.spawn
          || (call.dueOnly && c.area.Some? && p.z == c.area.value.center.z
              && c.area.value.center.x - c.area.value.radius <= p.x <= c.area.value.center.x + c.area.value.radius
              && c.area.value.center.y - c.area.value.radius <= p.y <= c.area.value.center.y + c.area.value.radius))
  {
    if c.area.Some? {
      var a := c.area.value;
      forall p: Position
        ensures Inside(a, p) <==> p.z == a.center.z && a.center.x - a.radius <= p.x <= a.center.x + a.radius
                                  && a.center.y - a.radius <= p.y <= a.center.y + a.radius
      {
      }
    }
  }

  /** A target is in range on the floor if neither coordinate is further away than the range. */
  lemma InRangeMeans(players: Crowd, lifecycles: map<PlayerId, Lifecycle>, from: Position, range: u8, p: PlayerId)
    ensures InRange(players, lifecycles, from, range, p) <==>
      && p in players && p in lifecycles && !lifecycles[p].dead && players[p].z == from.z
      && from.x - range <= players[p].x <= from.x + range && from.y - range <= players[p].y <= from.y + range
  {
  }

  // ----- installing and summoning -----

  /**
   * An entity stands where it is listed, on the map unless that is the origin, in full health and ready
   * to strike; the milliseconds between its blows are rounded up to whole ticks.
   */
  lemma InstalledMeans(e: Listing, tick: u64)
    ensures var c := Installed(e, tick);
      && c.position == c.spawn == e.position
      && (c.active <==> !(e.position.x == 0 && e.position.y == 0 && e.position.z == 0))
      && c.health == c.fullHealth == e.health && c.name == e.name && c.isNpc == e.isNpc && c.area == e.area
      && c.interval == e.interval && c.declaresDamage == e.declaresDamage
      && c.nextMelee == c.activatedAt == tick && c.sequence == 0 && c.target == None
      && c.due == None && c.inactiveSince == None
      && (c.cooldown.Some? <==> e.meleeMillis.Some?)
      && (c.cooldown.Some? ==> 1000 * c.cooldown.value - 1000 < e.meleeMillis.value <= 1000 * c.cooldown.value)
  {
  }

  /** A summon stands on its tile as a fighting copy of its template, and once put away it never comes up again. */
  lemma SummonsNeverReturn(template: Creature, at: Position, tick: u64, players: set<Position>, later: u64, now: u64)
    ensures var c := Summoned(template, at, tick);
      && c.active && !c.isNpc && c.position == c.spawn == at && c.name == template.name && c.health == template.health
      && c.cooldown == template.cooldown && c.declaresDamage == template.declaresDamage
      && c.nextMelee == c.activatedAt == tick && c.sequence == 0 && c.target == None
      && !Attempted(PutAway(c, later), Call(players, now, true))
  {
  }

  /** The tiles tried for a summon are the requested one, its four sides and its four corners, in this order. */
  lemma AroundIsTheSquare(at: Position, q: Position)
    requires 0 < at.x < 0xFFFF && 0 < at.y < 0xFFFF
    ensures (exists k: nat :: k < 9 && Around(at, k) == q)
       <==> q.z == at.z && at.x - 1 <= q.x <= at.x + 1 && at.y - 1 <= q.y <= at.y + 1
    ensures Around(at, 0) == at
    ensures forall k: nat | k < 9 :: Manhattan(at, Around(at, k)) == if k == 0 then 0 else if k < 5 then 1 else 2
  {
    forall k: nat | k < 9
      ensures Manhattan(at, Around(at, k)) == if k == 0 then 0 else if k < 5 then 1 else 2
      ensures at.x - 1 <= Around(at, k).x <= at.x + 1 && at.y - 1 <= Around(at, k).y <= at.y + 1
    {
      AroundIsNear(at, k);
    }
    if q.z == at.z && at.x - 1 <= q.x <= at.x + 1 && at.y - 1 <= q.y <= at.y + 1 {
      var k := IndexAround(q.x - at.x, q.y - at.y);
      assert Around(at, k) == q;
    }
  }

  lemma AroundIsNear(at: Position, k: nat)
    requires 0 < at.x < 0xFFFF && 0 < at.y < 0xFFFF && k < 9
    ensures Manhattan(at, Around(at, k)) == if k == 0 then 0 else if k < 5 then 1 else 2
    ensures at.x - 1 <= Around(at, k).x <= at.x + 1 && at.y - 1 <= Around(at, k).y <= at.y + 1
  {
  }

  lemma IndexAround(dx: int, dy: int) returns (k: nat)
    requires -1 <= dx <= 1 && -1 <= dy <= 1
    ensures k < 9 && [0, 1, -1, 0, 0, 1, -1, 1, -1][k] == dx && [0, 0, 0, 1, -1, 1, -1, -1, 1][k] == dy
  {
    k := if dx == 0 then (if dy == 0 then 0 else if dy == 1 then 3 else 4)
         else if dx == 1 then (if dy == 0 then 1 else if dy == 1 then 5 else 7)
         else if dy == 0 then 2 else if dy == 1 then 8 else 6;
  }

  predicate AllWhite(s: string) {
    forall c | c in s :: White(c)
  }

  /** A requested name is matched without the white space around it, and letter by letter in lower case. */
  lemma {:induction false} NamesAreFolded(lead: string, name: string, trail: string)
    requires AllWhite(lead) && AllWhite(trail) && name != [] && !White(name[0]) && !White(name[|name| - 1])
    ensures Fold(lead + name + trail) == Lower(name)
    decreases |lead|
  {
    if lead == [] {
      assert lead + name + trail == name + trail;
      TrimmedEnd(name, trail);
    } else {
      var s := lead + name + trail;
      assert s[0] == lead[0] && s[1..] == lead[1..] + name + trail;
      assert lead[0] in lead;
      NamesAreFolded(lead[1..], name, trail);
    }
  }

  lemma {:induction false} TrimmedEnd(name: string, trail: string)
    requires AllWhite(trail) && name != [] && !White(name[|name| - 1])
    ensures TrimEnd(name + trail) == name
    decreases |trail|
  {
    if trail == [] {
      assert name + trail == name;
    } else {
      var s, n := name + trail, |trail| - 1;
      assert s[|s| - 1] == trail[n] && trail[n] in trail && s[..|s| - 1] == name + trail[..n];
      TrimmedEnd(name, trail[..n]);
    }
  }

  lemma {:induction false} LoweredAt(s: string, k: nat)
    requires k < |s|
    ensures |Lower(s)| == |s|
    ensures Lower(s)[k] == if 'A' <= s[k] <= 'Z' then (s[k] as int + 32) as char else s[k]
  {
    if |s| > 1 {
      LoweredAt(s[1..], if k == 0 then 0 else k - 1);
    }
  }

  // ----- restarts -----

  /**
   * What a record of one creature restores on another with the same cooldown: place, presence, health
   * and count as they were, no target, and every deadline as far ahead of the new clock as it was of
   * the old one.
   */
  lemma SavedStateComesBack(id: CreatureId, c: Creature, before: u64, booted: Creature, now: u64)
    requires booted.cooldown == c.cooldown && now + 0xFFFF_FFFF < 0x1_0000_0000_0000_0000
    requires c.nextMelee <= before + 0xFFFF_FFFF && (c.due.Some? ==> !c.active && c.due.value <= before + 0xFFFF_FFFF)
    ensures var back := RestoredCreature(booted, RecordOf(id, c, before), now);
      && RecordOf(id, c, before).id == id
      && back.position == c.position && back.active == c.active
      && back.health == c.health && back.sequence == c.sequence
      && back.target == None && back.spawn == booted.spawn && back.name == booted.name
      && (c.cooldown.Some? ==> back.nextMelee - now == if before < c.nextMelee then c.nextMelee - before else 0)
      && (c.cooldown.None? ==> back.nextMelee == now)
      && (c.active ==> back.activatedAt == now && back.inactiveSince == None && back.due == None)
      && (!c.active ==> back.inactiveSince == Some(now) && back.activatedAt == booted.activatedAt)
      && (back.due.Some? <==> c.due.Some?)
      && (c.due.Some? ==> back.due.value - now == if before < c.due.value then c.due.value - before else 0)
  {
  }

  /** A creature with the traits of `c`, perhaps without its melee interval, that writes the record. */
  ghost predicate Writes(saved: Creature, tick: u64, c: Creature, r: Record) {
    && TimedCreature(saved, tick) && saved.interval == c.interval
    && (saved.cooldown == c.cooldown || saved.cooldown == None) && (saved.active || saved.cooldown == None)
    && RecordOf(r.id, saved, tick) == r
  }

  /** The checks of one record let through exactly what such a creature, with its clocks in order, could write. */
  lemma AcceptsExactlyWhatCreaturesWrite(r: Record, c: Creature)
    requires r.health <= 100 && (c.cooldown.Some? ==> c.cooldown.value <= 0xFFFF_FFFF)
    ensures Plausible(r, c) <==> exists saved, tick :: Writes(saved, tick, c, r)
  {
    if Plausible(r, c) {
      var saved := c.(position := r.position, active := r.active, health := r.health, sequence := r.sequence,
                      due := if r.reactivation.Some? then Some(r.reactivation.value) else None,
                      cooldown := if r.melee.Some? then c.cooldown else None,
                      nextMelee := if r.melee.Some? then r.melee.value else 0);
      assert Writes(saved, 0, c, r);
    }
  }
}
