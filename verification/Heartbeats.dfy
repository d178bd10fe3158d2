/** What one heartbeat does to health and conditions, in plain arithmetic, and which conditions there can be. */
module Heartbeats {
  import opened Prelude
  import opened Conditions

  /** What a condition takes in `e` seconds: its damage for every whole interval it completes while it lasts. */
  function Toll(cs: Conditions, k: Kind, e: nat): int
    requires AllSound(cs)
  {
    if k !in cs || k.Haste? then 0
    else
      var c := cs[k];
      var lasting: nat := if e < c.remaining then e else c.remaining;
      var seconds: nat := if c.elapsed + lasting < 65_535 then c.elapsed + lasting else 65_535;
      seconds / c.interval * c.damage
  }

  lemma TollIsDamage(cs: Conditions, k: Kind, e: nat)
    requires AllSound(cs) && e <= 60
    ensures k in cs ==> DamageOf(cs[k], e) == Toll(cs, k, e)
    ensures 0 <= Toll(cs, k, e) <= 60 * 65_535
  {
    if k in cs && !k.Haste? {
      var c := cs[k];
      var n := Intervals(Progress(c, e), c.interval);
      CountingIsDivision(Progress(c, e), c.interval);
      CountingIsMultiplication(n, c.damage);
      FewIntervals(c.elapsed, Progress(c, e) - c.elapsed, c.interval);
      ProductIsBounded(n, c.damage, 65_535);
    }
  }

  /** The condition with `e` seconds less, and what its last interval has left over. */
  predicate Aged(c: Condition, after: Condition, e: nat)
    requires c.interval > 0
  {
    var seconds: nat := if c.elapsed + e < 65_535 then c.elapsed + e else 65_535;
    && e <= c.remaining && after == c.(remaining := after.remaining, elapsed := after.elapsed)
    && after.remaining == c.remaining - e && after.elapsed == seconds % c.interval
  }

  lemma TickingAges(c: Condition, e: nat)
    requires c.interval > 0 && e <= c.remaining
    ensures Aged(c, Ticked(c, e), e)
  {
    CountingIsDivision(Progress(c, e), c.interval);
  }

  /**
   * A heartbeat counts at most a minute. The health goes down by the toll of all three damaging
   * conditions, to zero at the lowest; each condition keeps what is left of its time and of its last
   * interval, and is gone once its time is up.
   */
  lemma HeartbeatMeans(s: Ailing, t: u16)
    requires AllSound(s.conditions)
    ensures t == 0 ==> After(s, t) == s
    ensures var cs, after, e := s.conditions, After(s, t), if t < 60 then t else 60;
      var toll := Toll(cs, Poison, e) + Toll(cs, Burning, e) + Toll(cs, Energy, e);
      t > 0 ==>
        && after.health == (if toll < s.health then s.health - toll else 0)
        && (forall k :: k in after.conditions <==> k in cs && cs[k].remaining > e)
        && forall k | k in after.conditions :: Aged(cs[k], after.conditions[k], e)
  {
    var cs, e := s.conditions, if t < 60 then t else 60;
    AllTolls(cs, e);
    forall k | k in cs && cs[k].remaining > e ensures Aged(cs[k], Ticked(cs[k], e), e) {
      TickingAges(cs[k], e);
    }
  }

  lemma AllTolls(cs: Conditions, e: nat)
    requires AllSound(cs) && e <= 60
    ensures Requested(cs, e, |KINDS|) == Toll(cs, Poison, e) + Toll(cs, Burning, e) + Toll(cs, Energy, e)
  {
    TollIsDamage(cs, Poison, e);
    TollIsDamage(cs, Burning, e);
    TollIsDamage(cs, Energy, e);
    TollIsDamage(cs, Haste, e);
    assert Requested(cs, e, 0) == 0;
    assert Requested(cs, e, 1) == Toll(cs, Poison, e);
    assert Requested(cs, e, 2) == Toll(cs, Poison, e) + Toll(cs, Burning, e);
    assert Requested(cs, e, 3) == Toll(cs, Poison, e) + Toll(cs, Burning, e) + Toll(cs, Energy, e);
    assert Requested(cs, e, 4) == Requested(cs, e, 3);
  }

  /** Exactly these conditions can be loaded; the interval of a haste is always one. */
  lemma LoadedExactly(kind: Kind, interval: u16, damage: u16, speedBonus: u16, remaining: u16, elapsed: u16)
    ensures var r := FromPersisted(kind, interval, damage, speedBonus, remaining, elapsed);
      && (r.Ok? <==>
            && 1 <= remaining <= 3600 && elapsed < interval
            && (if kind.Haste? then damage == 0 && 1 <= speedBonus <= 100 else damage > 0 && speedBonus == 0))
      && (r.Ok? ==> r.value == Condition(kind, if kind.Haste? then 1 else interval, damage, speedBonus, remaining, elapsed))
  {
  }
}
