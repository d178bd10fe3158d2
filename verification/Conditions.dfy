/** Timed conditions: damage over time and haste, and why it does not matter how the time is batched. */
module Conditions {
  import opened Prelude
  import opened Geometry

  datatype Kind = Poison | Burning | Energy | Haste

  const KINDS: seq<Kind> := [Poison, Burning, Energy, Haste]

  datatype Condition = Condition(kind: Kind, interval: u16, damage: u16, speedBonus: u16, remaining: u16, elapsed: u16)

  type Conditions = map<Kind, Condition>

  const MAX_DURATION: u16 := 3_600
  const MAX_ELAPSED: u16 := 60
  const MAX_SPEED_BONUS: u16 := 100

  // ----- making conditions -----

  /**
   * What the scheduler relies on: time is left, and the stored progress is less than one interval. A haste
   * with interval one may carry any progress, since its first second forgets it.
   */
  predicate Sound(c: Condition) {
    && c.interval > 0 && (c.elapsed < c.interval || (c.kind.Haste? && c.interval == 1))
    && 0 < c.remaining <= MAX_DURATION
    && (c.kind.Haste? <==> c.damage == 0)
  }

  function NewDamage(kind: Kind, interval: u16, damage: u16, remaining: u16): (r: Result<Condition>)
    ensures r.Ok? ==> Sound(r.value)
  {
    if kind.Haste? || interval == 0 || damage == 0 || remaining == 0 || remaining > MAX_DURATION then Err
    else Ok(Condition(kind, interval, damage, 0, remaining, 0))
  }

  function NewHaste(speedBonus: u16, remaining: u16): (r: Result<Condition>)
    ensures r.Ok? ==> Sound(r.value)
  {
    if speedBonus == 0 || speedBonus > MAX_SPEED_BONUS || remaining == 0 || remaining > MAX_DURATION then Err
    else Ok(Condition(Haste, 1, 0, speedBonus, remaining, 0))
  }

  function FromPersisted(kind: Kind, interval: u16, damage: u16, speedBonus: u16, remaining: u16, elapsed: u16): (r: Result<Condition>)
    ensures r.Ok? ==> Sound(r.value)
  {
    var made :=
      if kind.Haste? then if interval == 0 || damage != 0 || speedBonus == 0 then Err else NewHaste(speedBonus, remaining)
      else if speedBonus != 0 then Err
      else NewDamage(kind, interval, damage, remaining);
    if made.Err? || elapsed >= interval then Err else Ok(made.value.(elapsed := elapsed))
  }

  /**
   * Loading checks the progress against the persisted interval, but a haste comes back with interval
   * one: its progress is below its interval exactly if it had none. Every loaded condition is sound.
   */
  lemma PersistedProgress(kind: Kind, interval: u16, damage: u16, speedBonus: u16, remaining: u16, elapsed: u16)
    requires FromPersisted(kind, interval, damage, speedBonus, remaining, elapsed).Ok?
    ensures var c := FromPersisted(kind, interval, damage, speedBonus, remaining, elapsed).value;
      Sound(c) && (c.elapsed < c.interval <==> !kind.Haste? || elapsed == 0)
  {
  }

  /** A haste persisted half way through an interval of three seconds comes back ahead of its interval. */
  lemma LoadedHasteIsAhead()
    ensures FromPersisted(Haste, 3, 0, 30, 10, 2) == Ok(Condition(Haste, 1, 0, 30, 10, 2))
  {
  }

  // ----- counting intervals -----

  /** Whole intervals in `x` seconds, what is left over, and `n` times an amount, counted out one by one. */
  function Intervals(x: nat, interval: nat): nat
    requires interval > 0
  {
    if x < interval then 0 else 1 + Intervals(x - interval, interval)
  }

  function Rest(x: nat, interval: nat): (r: nat)
    requires interval > 0
    ensures r < interval && r <= x
  {
    if x < interval then x else Rest(x - interval, interval)
  }

  function Product(n: nat, m: nat): nat {
    if n == 0 then 0 else m + Product(n - 1, m)
  }

  lemma {:induction false} Counted(x: nat, interval: nat)
    requires interval > 0
    ensures x == interval * Intervals(x, interval) + Rest(x, interval)
  {
    if x >= interval {
      Counted(x - interval, interval);
      Distribute(interval, 1, Intervals(x - interval, interval));
    }
  }

  lemma Distribute(d: int, a: int, b: int)
    ensures d * (a + b) == d * a + d * b
  {
  }

  lemma OneMore(d: nat, a: nat, b: nat)
    requires a < b
    ensures d * a + d <= d * b
  {
    assert d * b == d * (a + 1) + d * (b - a - 1);
  }

  lemma DivisionIsUnique(x: nat, d: nat, q: nat, r: nat)
    requires d > 0 && x == d * q + r && r < d
    ensures x / d == q && x % d == r
  {
    var q', r' := x / d, x % d;
    assert d * q + r == d * q' + r';
    if q < q' {
      OneMore(d, q, q');
    } else if q' < q {
      OneMore(d, q', q);
    }
  }

  /** The counts are division, remainder and multiplication. */
  lemma {:induction false} CountingIsDivision(x: nat, interval: nat)
    requires interval > 0
    ensures Intervals(x, interval) == x / interval && Rest(x, interval) == x % interval
  {
    Counted(x, interval);
    DivisionIsUnique(x, interval, Intervals(x, interval), Rest(x, interval));
  }

  lemma {:induction false} CountingIsMultiplication(n: nat, m: nat)
    ensures Product(n, m) == n * m
  {
    if n > 0 {
      CountingIsMultiplication(n - 1, m);
      assert n * m == (n - 1) * m + m;
    }
  }

  /** Counting whole intervals in two steps, carrying the remainder over. */
  lemma {:induction false} IntervalsAdd(x: nat, y: nat, interval: nat)
    requires interval > 0
    ensures Intervals(x, interval) + Intervals(Rest(x, interval) + y, interval) == Intervals(x + y, interval)
    ensures Rest(Rest(x, interval) + y, interval) == Rest(x + y, interval)
    decreases x
  {
    if x >= interval {
      IntervalsAdd(x - interval, y, interval);
    }
  }

  lemma {:induction false} ProductAdds(a: nat, b: nat, m: nat)
    ensures Product(a, m) + Product(b, m) == Product(a + b, m)
  {
    if a > 0 {
      ProductAdds(a - 1, b, m);
    }
  }

  lemma {:induction false} ProductIsBounded(n: nat, m: nat, bound: nat)
    requires m <= bound && n <= 60
    ensures Product(n, m) <= n * bound
  {
    if n > 0 {
      ProductIsBounded(n - 1, m, bound);
      assert n * bound == (n - 1) * bound + bound;
    }
  }

  lemma {:induction false} FewIntervals(x: nat, y: nat, interval: nat)
    requires x < interval
    ensures Intervals(x + y, interval) <= y
    decreases y
  {
    if x + y >= interval {
      if y >= interval {
        FewIntervals(x, y - interval, interval);
      } else {
        assert Intervals(x + y - interval, interval) == 0;
      }
    }
  }

  // ----- one tick -----

  function Active(c: Condition, t: nat): nat {
    Min(t, c.remaining)
  }

  /** `u16::saturating_add` */
  function Progress(c: Condition, t: nat): u16 {
    Min(c.elapsed + Active(c, t), U16_MAX)
  }

  function Ticked(c: Condition, t: nat): Condition
    requires c.interval > 0
  {
    c.(elapsed := Rest(Progress(c, t), c.interval), remaining := c.remaining - Active(c, t))
  }

  function DamageOf(c: Condition, t: nat): nat
    requires c.interval > 0
  {
    if c.kind.Haste? then 0 else Product(Intervals(Progress(c, t), c.interval), c.damage)
  }

  predicate AllSound(cs: Conditions) {
    forall k | k in cs :: Sound(cs[k]) && cs[k].kind == k
  }

  /** Saturating addition of unsigned 32-bit numbers. */
  function Sat32(a: nat, b: nat): nat {
    Min(a + b, U32_MAX)
  }

  /** The fold over the first `n` kinds, saturating at every step. */
  function Requested(cs: Conditions, t: nat, n: nat): nat
    requires AllSound(cs) && n <= |KINDS|
  {
    if n == 0 then 0
    else
      var k := KINDS[n - 1];
      if k in cs then Sat32(Requested(cs, t, n - 1), Min(DamageOf(cs[k], t), U32_MAX)) else Requested(cs, t, n - 1)
  }

  /** Damage is capped by the health that is left. */
  function Pending(health: u16, cs: Conditions, t: nat): u16
    requires AllSound(cs)
  {
    Min(Requested(cs, t, |KINDS|), health)
  }

  function AllTicked(cs: Conditions, t: nat): (after: Conditions)
    requires AllSound(cs)
    ensures AllSound(after)
  {
    map k | k in cs && cs[k].remaining > Active(cs[k], t) :: Ticked(cs[k], t)
  }

  datatype Ailing = Ailing(health: u16, conditions: Conditions)

  /** A living player after a heartbeat. */
  function After(s: Ailing, t: u16): (after: Ailing)
    requires AllSound(s.conditions)
    ensures AllSound(after.conditions)
  {
    var elapsed := Min(t, MAX_ELAPSED);
    if elapsed == 0 || s.conditions == map[] then s
    else Ailing(s.health - Pending(s.health, s.conditions, elapsed), AllTicked(s.conditions, elapsed))
  }

  // ----- ideal time: no cap, no saturation -----

  /** The progress fits the counter for as long as the condition lasts, or no progress is ever kept. */
  predicate Roomy(c: Condition) {
    c.elapsed + c.remaining <= U16_MAX || c.interval == 1
  }

  predicate AllRoomy(cs: Conditions) {
    AllSound(cs) && forall k | k in cs :: Roomy(cs[k])
  }

  function IdealCondition(c: Condition, t: nat): Condition
    requires Sound(c) && Roomy(c)
  {
    if t == 0 then c
    else c.(elapsed := Rest(c.elapsed + Active(c, t), c.interval), remaining := c.remaining - Active(c, t))
  }

  function IdealDamage(c: Condition, t: nat): nat
    requires Sound(c)
  {
    Product(Intervals(c.elapsed + Active(c, t), c.interval), c.damage)
  }

  function TotalDamage(cs: Conditions, t: nat, n: nat): nat
    requires AllSound(cs) && n <= |KINDS|
  {
    if n == 0 then 0
    else TotalDamage(cs, t, n - 1) + if KINDS[n - 1] in cs then IdealDamage(cs[KINDS[n - 1]], t) else 0
  }

  function IdealConditions(cs: Conditions, t: nat): Conditions
    requires AllRoomy(cs)
  {
    map k | k in cs && cs[k].remaining > t :: IdealCondition(cs[k], t)
  }

  /** What `t` seconds do, all at once and without any bound. */
  function Ideal(s: Ailing, t: nat): Ailing
    requires AllRoomy(s.conditions)
  {
    var total := TotalDamage(s.conditions, t, |KINDS|);
    Ailing(s.health - Min(total, s.health), IdealConditions(s.conditions, t))
  }

  // ----- a heartbeat of at most a minute is ideal time -----

  lemma DamageIsBounded(c: Condition, t: nat)
    requires Sound(c) && t <= MAX_ELAPSED
    ensures IdealDamage(c, t) <= 60 * U16_MAX
  {
    var n := Intervals(c.elapsed + Active(c, t), c.interval);
    if c.kind.Haste? {
      CountingIsMultiplication(n, 0);
    } else {
      FewIntervals(c.elapsed, Active(c, t), c.interval);
      ProductIsBounded(n, c.damage, U16_MAX);
    }
  }

  lemma TickOfOne(c: Condition, t: nat)
    requires Sound(c) && Roomy(c)
    ensures t > 0 ==> Ticked(c, t) == IdealCondition(c, t)
    ensures c.kind.Haste? ==> IdealDamage(c, t) == 0
    ensures DamageOf(c, t) == IdealDamage(c, t)
  {
    CountingIsMultiplication(Intervals(c.elapsed + Active(c, t), c.interval), 0);
  }

  lemma {:induction false} NothingOverflows(cs: Conditions, t: nat, n: nat)
    requires AllRoomy(cs) && n <= |KINDS| && t <= MAX_ELAPSED
    ensures Requested(cs, t, n) == TotalDamage(cs, t, n) <= n * 60 * U16_MAX
  {
    if n > 0 {
      NothingOverflows(cs, t, n - 1);
      if KINDS[n - 1] in cs {
        TickOfOne(cs[KINDS[n - 1]], t);
        DamageIsBounded(cs[KINDS[n - 1]], t);
      }
    }
  }

  lemma ZeroIsNothing(c: Condition)
    requires Sound(c) && Roomy(c)
    ensures IdealCondition(c, 0) == c && IdealDamage(c, 0) == 0
  {
    CountingIsMultiplication(Intervals(c.elapsed, c.interval), c.damage);
  }

  lemma {:induction false} NoTimeNoDamage(cs: Conditions, n: nat)
    requires AllRoomy(cs) && n <= |KINDS|
    ensures TotalDamage(cs, 0, n) == 0
  {
    if n > 0 {
      NoTimeNoDamage(cs, n - 1);
      if KINDS[n - 1] in cs {
        ZeroIsNothing(cs[KINDS[n - 1]]);
      }
    }
  }

  lemma {:induction false} NoConditionsNoDamage(t: nat, n: nat)
    requires n <= |KINDS|
    ensures TotalDamage(map[], t, n) == 0
  {
    if n > 0 {
      NoConditionsNoDamage(t, n - 1);
    }
  }

  lemma TickOfAll(cs: Conditions, t: nat)
    requires AllRoomy(cs) && t > 0
    ensures AllTicked(cs, t) == IdealConditions(cs, t)
  {
    forall k | k in cs ensures Ticked(cs[k], t) == IdealCondition(cs[k], t) {
      TickOfOne(cs[k], t);
    }
  }

  lemma ZeroIsNothingAtAll(cs: Conditions)
    requires AllRoomy(cs)
    ensures IdealConditions(cs, 0) == cs
  {
    forall k | k in cs ensures IdealCondition(cs[k], 0) == cs[k] {
      ZeroIsNothing(cs[k]);
    }
  }

  lemma HeartbeatIsIdeal(s: Ailing, t: u16)
    requires AllRoomy(s.conditions)
    ensures After(s, t) == Ideal(s, Min(t, MAX_ELAPSED))
  {
    var elapsed := Min(t, MAX_ELAPSED);
    if elapsed == 0 {
      NoTimeNoDamage(s.conditions, |KINDS|);
      ZeroIsNothingAtAll(s.conditions);
    } else if s.conditions == map[] {
      NoConditionsNoDamage(elapsed, |KINDS|);
    } else {
      NothingOverflows(s.conditions, elapsed, |KINDS|);
      TickOfAll(s.conditions, elapsed);
    }
  }

  // ----- ideal time adds up -----

  lemma ScheduleOfOneAdds(c: Condition, a: nat, b: nat)
    requires Sound(c) && Roomy(c) && c.remaining > a
    ensures var next := IdealCondition(c, a);
      && Sound(next) && Roomy(next) && next.kind == c.kind && next.remaining == c.remaining - a
      && (a > 0 || c.elapsed < c.interval ==> next.elapsed == Rest(c.elapsed + a, c.interval))
      && Active(c, a + b) == a + Active(next, b)
      && (next.remaining > b ==> IdealCondition(next, b) == IdealCondition(c, a + b))
  {
    IntervalsAdd(c.elapsed + a, Active(IdealCondition(c, a), b), c.interval);
  }

  lemma DamageInTwoSteps(x: nat, y: nat, interval: nat, damage: nat)
    requires interval > 0
    ensures Product(Intervals(x, interval), damage) + Product(Intervals(Rest(x, interval) + y, interval), damage)
         == Product(Intervals(x + y, interval), damage)
  {
    IntervalsAdd(x, y, interval);
    ProductAdds(Intervals(x, interval), Intervals(Rest(x, interval) + y, interval), damage);
  }

  lemma HasteDoesNoDamage(c: Condition, t: nat)
    requires Sound(c) && c.kind.Haste?
    ensures IdealDamage(c, t) == 0
  {
    CountingIsMultiplication(Intervals(c.elapsed + Active(c, t), c.interval), 0);
  }

  lemma DamageOfOneAdds(c: Condition, a: nat, b: nat)
    requires Sound(c) && Roomy(c) && c.remaining > a
    ensures var next := IdealCondition(c, a);
      Sound(next) && IdealDamage(c, a) + IdealDamage(next, b) == IdealDamage(c, a + b)
  {
    var next := IdealCondition(c, a);
    ScheduleOfOneAdds(c, a, b);
    if c.kind.Haste? {
      HasteDoesNoDamage(c, a);
      HasteDoesNoDamage(next, b);
      HasteDoesNoDamage(c, a + b);
    } else {
      var x, y := c.elapsed + a, Active(next, b);
      assert next.elapsed == Rest(x, c.interval) && c.elapsed + Active(c, a + b) == x + y;
      DamageInTwoSteps(x, y, c.interval, c.damage);
      assert IdealDamage(c, a) == Product(Intervals(x, c.interval), c.damage);
      assert IdealDamage(next, b) == Product(Intervals(Rest(x, c.interval) + y, c.interval), c.damage);
      assert IdealDamage(c, a + b) == Product(Intervals(x + y, c.interval), c.damage);
    }
  }

  lemma ExpiredIsOver(c: Condition, a: nat, b: nat)
    requires Sound(c) && c.remaining <= a
    ensures IdealDamage(c, a + b) == IdealDamage(c, a)
  {
  }

  lemma IdealKeepsRoom(cs: Conditions, a: nat)
    requires AllRoomy(cs)
    ensures AllRoomy(IdealConditions(cs, a))
  {
    forall k | k in cs && cs[k].remaining > a
      ensures Sound(IdealCondition(cs[k], a)) && Roomy(IdealCondition(cs[k], a)) && IdealCondition(cs[k], a).kind == k
    {
      ScheduleOfOneAdds(cs[k], a, 0);
    }
  }

  lemma {:induction false} DamageAdds(cs: Conditions, a: nat, b: nat, n: nat)
    requires AllRoomy(cs) && AllRoomy(IdealConditions(cs, a)) && n <= |KINDS|
    ensures TotalDamage(cs, a, n) + TotalDamage(IdealConditions(cs, a), b, n) == TotalDamage(cs, a + b, n)
  {
    if n > 0 {
      DamageAdds(cs, a, b, n - 1);
      var k := KINDS[n - 1];
      if k in cs {
        if cs[k].remaining > a {
          DamageOfOneAdds(cs[k], a, b);
        } else {
          ExpiredIsOver(cs[k], a, b);
        }
      }
    }
  }

  lemma ConditionsAdd(cs: Conditions, a: nat, b: nat)
    requires AllRoomy(cs) && AllRoomy(IdealConditions(cs, a))
    ensures IdealConditions(IdealConditions(cs, a), b) == IdealConditions(cs, a + b)
  {
    forall k | k in cs && cs[k].remaining > a
      ensures IdealCondition(cs[k], a).remaining == cs[k].remaining - a
      ensures cs[k].remaining > a + b ==> IdealCondition(IdealCondition(cs[k], a), b) == IdealCondition(cs[k], a + b)
    {
      ScheduleOfOneAdds(cs[k], a, b);
    }
  }

  lemma CapsAdd(health: nat, d: nat, e: nat)
    ensures var left := health - Min(d, health); left - Min(e, left) == health - Min(d + e, health)
  {
  }

  lemma TimeAdds(s: Ailing, a: nat, b: nat)
    requires AllRoomy(s.conditions)
    ensures AllRoomy(Ideal(s, a).conditions)
    ensures Ideal(Ideal(s, a), b) == Ideal(s, a + b)
  {
    var cs := s.conditions;
    IdealKeepsRoom(cs, a);
    DamageAdds(cs, a, b, |KINDS|);
    ConditionsAdd(cs, a, b);
    CapsAdd(s.health, TotalDamage(cs, a, |KINDS|), TotalDamage(IdealConditions(cs, a), b, |KINDS|));
  }

  // ----- batching -----

  /** Seconds that count: every heartbeat is capped at a minute. */
  function Elapsed(ts: seq<u16>): nat {
    if ts == [] then 0 else Elapsed(ts[..|ts| - 1]) + Min(ts[|ts| - 1], MAX_ELAPSED)
  }

  function Run(s: Ailing, ts: seq<u16>): (end: Ailing)
    requires AllSound(s.conditions)
    ensures AllSound(end.conditions)
  {
    if ts == [] then s else After(Run(s, ts[..|ts| - 1]), ts[|ts| - 1])
  }

  /** A run of heartbeats does what the elapsed time does at once. */
  lemma {:induction false} RunIsIdeal(s: Ailing, ts: seq<u16>)
    requires AllRoomy(s.conditions)
    ensures Run(s, ts) == Ideal(s, Elapsed(ts)) && AllRoomy(Run(s, ts).conditions)
  {
    if ts == [] {
      HeartbeatIsIdeal(s, 0);
    } else {
      var front, t := ts[..|ts| - 1], ts[|ts| - 1];
      RunIsIdeal(s, front);
      HeartbeatIsIdeal(Run(s, front), t);
      TimeAdds(s, Elapsed(front), Min(t, MAX_ELAPSED));
      TimeAdds(s, Elapsed(ts), 0);
    }
  }

  /**
   * How the time is batched does not matter: two runs of heartbeats with the same elapsed time leave
   * the same health and the same schedules, so they did the same damage and let the same conditions
   * expire.
   */
  lemma {:induction false} BatchingDoesNotMatter(s: Ailing, ts: seq<u16>, us: seq<u16>)
    requires AllRoomy(s.conditions) && Elapsed(ts) == Elapsed(us)
    ensures Run(s, ts) == Run(s, us)
  {
    RunIsIdeal(s, ts);
    RunIsIdeal(s, us);
  }

  // ----- exactly when one heartbeat may be split, whatever the progress -----

  /** A condition after a heartbeat, or gone. */
  function Next(c: Condition, t: nat): Option<Condition>
    requires c.interval > 0
  {
    if c.remaining > Active(c, t) then Some(Ticked(c, t)) else None
  }

  function Twice(c: Condition, a: nat, b: nat): Option<Condition>
    requires c.interval > 0
  {
    match Next(c, a)
    case None => None
    case Some(next) => Next(next, b)
  }

  lemma SaturatedTick(c: Condition, a: nat, b: nat)
    requires Sound(c) && c.elapsed < c.interval
    requires 0 < a && 0 < b && a + b <= MAX_ELAPSED && c.remaining > a + b && c.elapsed + a + b > U16_MAX
    ensures Rest(U16_MAX, c.interval) == U16_MAX - c.interval
    ensures Ticked(c, a + b).elapsed == U16_MAX - c.interval
    ensures c.elapsed + a < c.interval ==> Ticked(c, a).elapsed == c.elapsed + a
    ensures c.elapsed + a >= c.interval ==> Ticked(c, a).elapsed == Min(c.elapsed + a, U16_MAX) - c.interval
  {
    var p := Min(c.elapsed + a, U16_MAX);
    assert c.interval > 60 && p < c.interval + 60;
    if p >= c.interval {
      assert Rest(p - c.interval, c.interval) == p - c.interval;
    }
    assert Progress(c, a) == Min(c.elapsed + a, U16_MAX) && Progress(c, a + b) == U16_MAX;
  }

  /** The counter saturates only for intervals of more than eighteen hours; then a split can tell. */
  lemma SplitExactly(c: Condition, a: nat, b: nat)
    requires Sound(c) && 0 < a && 0 < b && a + b <= MAX_ELAPSED
    ensures Twice(c, a, b) == Next(c, a + b)
            <==> c.remaining <= a + b || c.elapsed + a + b <= U16_MAX || c.elapsed + a < c.interval || c.interval == 1
  {
    if c.remaining > a + b && c.interval > 1 {
      if c.elapsed + a + b <= U16_MAX {
        IntervalsAdd(c.elapsed + a, b, c.interval);
      } else {
        SaturatedTick(c, a, b);
        var next := Ticked(c, a);
        assert Progress(next, b) == Min(next.elapsed + b, U16_MAX);
      }
    }
  }

  // ----- a player who may die of it -----

  datatype Outcome = Outcome(damage: u16, health: u16, expired: nat)

  /** The record of a death that a lethal heartbeat leaves. */
  datatype Death = Death(respawnAt: Position, tick: u64)

  /** A heartbeat that would be lethal. */
  predicate Lethal(s: Ailing, t: u16)
    requires AllSound(s.conditions)
  {
    var pending := Pending(s.health, s.conditions, Min(t, MAX_ELAPSED));
    pending > 0 && pending >= s.health
  }

  function OutcomeOf(s: Ailing, t: u16): Outcome
    requires AllSound(s.conditions)
  {
    var after := After(s, t);
    Outcome(s.health - after.health, after.health, |s.conditions.Keys - after.conditions.Keys|)
  }

  /** Without time or without conditions there is no damage. */
  lemma {:induction false} NothingRequested(cs: Conditions, t: nat, n: nat)
    requires AllSound(cs) && n <= |KINDS| && (t == 0 || cs == map[])
    ensures Requested(cs, t, n) == 0
  {
    if n > 0 {
      NothingRequested(cs, t, n - 1);
    }
  }

  /** The place of a kind in the order of the map. */
  function Place(k: Kind): (i: nat)
    ensures i < |KINDS| && KINDS[i] == k
  {
    match k
    case Poison => 0
    case Burning => 1
    case Energy => 2
    case Haste => 3
  }

  /** The schedules of the first `n` kinds have been advanced. */
  function Partly(cs: Conditions, t: nat, n: nat): Conditions
    requires AllSound(cs)
  {
    map k | k in cs :: if Place(k) < n then Ticked(cs[k], t) else cs[k]
  }

  lemma PartlyStep(cs: Conditions, t: nat, i: nat)
    requires AllSound(cs) && i < |KINDS|
    ensures Partly(cs, t, i + 1) ==
      if KINDS[i] in cs then Partly(cs, t, i)[KINDS[i] := Ticked(cs[KINDS[i]], t)] else Partly(cs, t, i)
    ensures Place(KINDS[i]) == i
  {
    assert Place(KINDS[i]) == i;
  }

  lemma DropExpired(cs: Conditions, t: nat, expired: set<Kind>)
    requires AllSound(cs)
    requires forall k :: k in expired <==> k in cs && cs[k].remaining == Active(cs[k], t)
    ensures Partly(cs, t, |KINDS|) - expired == AllTicked(cs, t)
    ensures expired == cs.Keys - AllTicked(cs, t).Keys
  {
  }

  /** A heartbeat is lethal exactly if it does damage and leaves no health. */
  lemma LethalMeans(s: Ailing, t: u16)
    requires AllSound(s.conditions)
    ensures Lethal(s, t) <==> OutcomeOf(s, t).damage > 0 && OutcomeOf(s, t).health == 0
  {
    var elapsed := Min(t, MAX_ELAPSED);
    if elapsed == 0 || s.conditions == map[] {
      NothingRequested(s.conditions, elapsed, |KINDS|);
    }
  }

  /** A player's life as far as conditions go. */
  datatype Life = Life(ailing: Ailing, dead: bool, death: Option<Death>)

  /** A heartbeat that may kill, or is refused because there is no temple to return to. */
  function Lived(l: Life, t: u16, temple: Option<Position>, tick: u64): Result<Life>
    requires AllSound(l.ailing.conditions)
  {
    if l.dead then Ok(l)
    else if !Lethal(l.ailing, t) then Ok(l.(ailing := After(l.ailing, t)))
    else if temple.None? then Err
    else Ok(Life(Ailing(0, map[]), true, Some(Death(temple.value, tick))))
  }

  class Sufferer {
    var health: u16
    var conditions: Conditions
    var dead: bool
    var death: Option<Death>

    constructor (points: u16)
      ensures AllSound(conditions) && health == points && conditions == map[] && !dead
    {
      health, conditions, dead, death := points, map[], false, None;
    }

    /** Replaces the condition of one kind; true if that changed anything. */
    method Contract(c: Condition) returns (changed: bool)
      requires AllSound(conditions) && Sound(c)
      modifies this`conditions
      ensures AllSound(conditions) && conditions == old(conditions)[c.kind := c]
      ensures changed <==> !(c.kind in old(conditions) && old(conditions)[c.kind] == c)
    {
      if c.kind in conditions && conditions[c.kind] == c {
        return false;
      }
      conditions := conditions[c.kind := c];
      return true;
    }

    /** The damage a heartbeat would do, folded over the conditions in their order. */
    method PendingDamage(elapsed: u16) returns (damage: u16)
      requires AllSound(conditions)
      ensures damage == Pending(health, conditions, elapsed)
    {
      var total: nat := 0;
      for i := 0 to |KINDS|
        invariant total == Requested(conditions, elapsed, i) <= U32_MAX
      {
        var k := KINDS[i];
        if k in conditions && !k.Haste? {
          var c := conditions[k];
          var progress := Min(c.elapsed + Min(elapsed, c.remaining), U16_MAX);
          CountingIsDivision(progress, c.interval);
          CountingIsMultiplication(progress / c.interval, c.damage);
          total := Sat32(total, Min(progress / c.interval * c.damage, U32_MAX));
        }
      }
      damage := Min(total, health);
    }

    /** Advances every schedule and drops the expired ones. */
    method AdvanceSchedules(elapsed: u16) returns (expired: set<Kind>)
      requires AllSound(conditions)
      modifies this`conditions
      ensures conditions == AllTicked(old(conditions), elapsed)
      ensures expired == old(conditions).Keys - conditions.Keys
    {
      expired := {};
      var before, schedules := conditions, conditions;
      for i := 0 to |KINDS|
        invariant schedules == Partly(before, elapsed, i)
        invariant forall k :: k in expired <==> k in before && Place(k) < i && before[k].remaining == Active(before[k], elapsed)
      {
        var k := KINDS[i];
        PartlyStep(before, elapsed, i);
        if k in before {
          var c := Advance(before[k], elapsed);
          schedules := schedules[k := c];
          if c.remaining == 0 {
            expired := expired + {k};
          }
        }
      }
      DropExpired(before, elapsed, expired);
      conditions := schedules - expired;
    }

    /** One schedule: the progress keeps its remainder, the remaining time runs down. */
    method Advance(c: Condition, elapsed: u16) returns (next: Condition)
      requires Sound(c)
      ensures next == Ticked(c, elapsed)
    {
      var active := Min(elapsed, c.remaining);
      var total := Min(c.elapsed + active, U16_MAX);
      CountingIsDivision(total, c.interval);
      next := c.(elapsed := total % c.interval, remaining := c.remaining - active);
    }

    /** One heartbeat. */
    method Apply(elapsed: u16) returns (r: Outcome)
      requires AllSound(conditions)
      modifies this`health, this`conditions
      ensures AllSound(conditions)
      ensures Ailing(health, conditions) == if dead then old(Ailing(health, conditions)) else After(old(Ailing(health, conditions)), elapsed)
      ensures r == if dead then Outcome(0, health, 0) else OutcomeOf(old(Ailing(health, conditions)), elapsed)
    {
      if dead {
        return Outcome(0, health, 0);
      }
      var bounded := Min(elapsed, MAX_ELAPSED);
      var damage := PendingDamage(bounded);
      if bounded == 0 || conditions == map[] {
        return Outcome(0, health, 0);
      }
      var expired := AdvanceSchedules(bounded);
      health := health - damage;
      return Outcome(damage, health, |expired|);
    }

    ghost function Now(): Life
      reads this
    {
      Life(Ailing(health, conditions), dead, death)
    }

    /**
     * One heartbeat that may kill. It fails exactly if it would be lethal and there is no temple to
     * return to, and then nothing has changed; a lethal one leaves a dead player without conditions.
     */
    method ApplyWithDeath(elapsed: u16, temple: Option<Position>, tick: u64) returns (r: Result<Outcome>)
      requires AllSound(conditions)
      modifies this
      ensures AllSound(conditions)
      ensures r.Err? <==> Lived(old(Now()), elapsed, temple, tick).Err?
      ensures Now() == if r.Err? then old(Now()) else Lived(old(Now()), elapsed, temple, tick).value
      ensures r.Ok? ==> r.value == if old(dead) then Outcome(0, health, 0) else OutcomeOf(old(Now()).ailing, elapsed)
    {
      if dead {
        return Ok(Outcome(0, health, 0));
      }
      LethalMeans(Ailing(health, conditions), elapsed);
      ghost var goal := Lived(Now(), elapsed, temple, tick);
      var lethal := WouldKill(elapsed);
      if lethal && temple.None? {
        return Err;
      }
      assert goal.Ok?;
      var outcome := Apply(elapsed);
      Bury(outcome.damage > 0 && outcome.health == 0, temple, tick);
      assert Now() == goal.value;
      return Ok(outcome);
    }

    /** Enters the death state at the temple, if the heartbeat was lethal. */
    method Bury(lethal: bool, temple: Option<Position>, tick: u64)
      requires AllSound(conditions) && (lethal ==> temple.Some?)
      modifies this
      ensures Now() == if lethal then Life(Ailing(0, map[]), true, Some(Death(temple.value, tick))) else old(Now())
    {
      if lethal {
        health, conditions, dead, death := 0, map[], true, Some(Death(temple.value, tick));
      }
    }

    /** Whether the pending damage of a heartbeat takes all the health that is left. */
    method WouldKill(elapsed: u16) returns (lethal: bool)
      requires AllSound(conditions)
      ensures lethal <==> Lethal(Ailing(health, conditions), elapsed)
    {
      var pending := PendingDamage(Min(elapsed, MAX_ELAPSED));
      lethal := pending > 0 && pending >= health;
    }
  }
}
