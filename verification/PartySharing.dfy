/**
 * When a party shares experience: the checks the engine makes participant by participant, and the
 * condition they amount to.
 */
module PartySharing {
  import opened Prelude
  import opened Geometry
  import opened Parties

  datatype Rules = Rules(range: u16, floors: u8, window: u64)

  /** What the rules look at in a player. */
  datatype Fighter = Fighter(level: u32, at: Position)

  type Roster = map<PlayerId, Fighter>

  datatype Eligibility = NotRequested | EmptyParty | LevelSpreadTooLarge | TooFarAway | MemberInactive | Eligible

  predicate IsHighest(ids: seq<PlayerId>, roster: Roster, h: u32) {
    && (forall i | 0 <= i < |ids| && ids[i] in roster :: roster[ids[i]].level <= h)
    && (h == 0 || exists i :: 0 <= i < |ids| && ids[i] in roster && roster[ids[i]].level == h)
  }

  /** Two thirds of a level, rounded up, with both operations saturating. */
  function MinimumLevel(h: u32): u32 {
    Min(Min(h * 2, U32_MAX) + 2, U32_MAX) / 3
  }

  /** Away from the ceiling of the level type, the bound is exactly "at least two thirds". */
  lemma TwoThirds(h: u32, level: u32)
    requires h * 2 + 2 <= U32_MAX
    ensures level >= MinimumLevel(h) <==> 3 * level >= 2 * h
  {
  }

  /** The first thing wrong with one participant. */
  function Objection(b: Book, roster: Roster, rules: Rules, tick: u64, leader: Position, least: u32, p: PlayerId): Eligibility {
    if p !in roster || roster[p].level < least then LevelSpreadTooLarge
    else if TooFar(roster[p].at, leader, rules) then TooFarAway
    else if p !in b.activity || (tick > b.activity[p] && tick - b.activity[p] > rules.window) then MemberInactive
    else Eligible
  }

  /** A participant's objections in the order they are reported: strength, then distance, then activity. */
  lemma ObjectionsInOrder(b: Book, roster: Roster, rules: Rules, tick: u64, leader: Position, least: u32, p: PlayerId)
    ensures var answer, weak := Objection(b, roster, rules, tick, leader, least, p), p !in roster || roster[p].level < least;
      && (answer == LevelSpreadTooLarge <==> weak)
      && (answer == TooFarAway <==> !weak && Beyond(roster[p].at, leader, rules))
      && (answer == MemberInactive <==> !weak && !Beyond(roster[p].at, leader, rules)
                                        && (p in b.activity ==> b.activity[p] + rules.window < tick))
      && answer != NotRequested && answer != EmptyParty
  {
  }

  /** Out of the block of tiles around the leader. */
  predicate Beyond(p: Position, leader: Position, rules: Rules) {
    !(&& leader.x - rules.range <= p.x <= leader.x + rules.range
      && leader.y - rules.range <= p.y <= leader.y + rules.range
      && leader.z - rules.floors <= p.z <= leader.z + rules.floors)
  }

  predicate TooFar(p: Position, leader: Position, rules: Rules) {
    AbsDiff(p.x, leader.x) > rules.range || AbsDiff(p.y, leader.y) > rules.range || AbsDiff(p.z, leader.z) > rules.floors
  }

  /** Near enough, strong enough and lately active. */
  predicate Fit(b: Book, roster: Roster, rules: Rules, tick: u64, leader: Position, least: u32, p: PlayerId) {
    && p in roster && roster[p].level >= least
    && !TooFar(roster[p].at, leader, rules)
    && p in b.activity && tick <= b.activity[p] + rules.window
  }

  /** The participants in the order they are looked at. */
  ghost function Participants(b: Book, leader: PlayerId): seq<PlayerId> {
    [leader] + Ascending(Members(b, leader))
  }

  /** What the answer to a request has to be: the first objection to the first participant that has one. */
  ghost predicate RightAnswer(b: Book, leader: PlayerId, roster: Roster, rules: Rules, tick: u64, answer: Eligibility) {
    if leader !in b.requested then answer == NotRequested
    else if Members(b, leader) == {} then answer == EmptyParty
    else if leader !in roster then answer == LevelSpreadTooLarge
    else
      var ids := Participants(b, leader);
      exists h: u32 :: IsHighest(ids, roster, h) && FirstObjection(b, ids, roster, rules, tick, roster[leader].at, MinimumLevel(h), answer)
  }

  predicate FirstObjection(b: Book, ids: seq<PlayerId>, roster: Roster, rules: Rules, tick: u64,
                           at: Position, least: u32, answer: Eligibility) {
    if answer.Eligible? then forall i | 0 <= i < |ids| :: Objection(b, roster, rules, tick, at, least, ids[i]).Eligible?
    else exists i :: 0 <= i < |ids| && Objection(b, roster, rules, tick, at, least, ids[i]) == answer
                     && forall j | 0 <= j < i :: Objection(b, roster, rules, tick, at, least, ids[j]).Eligible?
  }

  method State(b: Book, leader: PlayerId, roster: Roster, rules: Rules, tick: u64) returns (r: Result<Eligibility>)
    ensures r.Ok? <==> leader in b.online && leader in b.leaders
    ensures r.Ok? ==> RightAnswer(b, leader, roster, rules, tick, r.value)
  {
    if leader !in b.online || leader !in b.leaders {
      return Err;
    }
    if leader !in b.requested {
      return Ok(NotRequested);
    }
    var members: seq<PlayerId> := VisitOrder(Members(b, leader));
    if members == [] {
      assert Members(b, leader) == {};
      return Ok(EmptyParty);
    }
    assert members[0] in Members(b, leader);
    if leader !in roster {
      return Ok(LevelSpreadTooLarge);
    }
    var ids := [leader] + members;
    var highest := HighestLevel(ids, roster);
    var least, at := MinimumLevel(highest), roster[leader].at;
    for i := 0 to |ids|
      invariant forall j | 0 <= j < i :: Objection(b, roster, rules, tick, at, least, ids[j]).Eligible?
    {
      var objection := Objection(b, roster, rules, tick, at, least, ids[i]);
      if !objection.Eligible? {
        assert FirstObjection(b, ids, roster, rules, tick, at, least, objection);
        return Ok(objection);
      }
    }
    assert FirstObjection(b, ids, roster, rules, tick, at, least, Eligible);
    return Ok(Eligible);
  }

  method HighestLevel(ids: seq<PlayerId>, roster: Roster) returns (h: u32)
    ensures IsHighest(ids, roster, h)
  {
    h := 0;
    for i := 0 to |ids|
      invariant forall j | 0 <= j < i && ids[j] in roster :: roster[ids[j]].level <= h
      invariant h == 0 || exists j :: 0 <= j < i && ids[j] in roster && roster[ids[j]].level == h
    {
      if ids[i] in roster && roster[ids[i]].level > h {
        h := roster[ids[i]].level;
      }
    }
  }

  /** A party shares exactly when it asked, has a member, and every participant is fit for the strongest one. */
  lemma SharesExactlyWhenAllAreFit(b: Book, leader: PlayerId, roster: Roster, rules: Rules, tick: u64, answer: Eligibility, h: u32)
    requires RightAnswer(b, leader, roster, rules, tick, answer)
    requires IsHighest(Participants(b, leader), roster, h)
    ensures answer == Eligible <==>
      && leader in b.requested && Members(b, leader) != {} && leader in roster
      && forall p | p == leader || p in Members(b, leader) :: Fit(b, roster, rules, tick, roster[leader].at, MinimumLevel(h), p)
  {
    if leader in b.requested && Members(b, leader) != {} && leader in roster {
      var ids := Participants(b, leader);
      var k: u32 :| IsHighest(ids, roster, k) && FirstObjection(b, ids, roster, rules, tick, roster[leader].at, MinimumLevel(k), answer);
      assert k == h;
      NoObjectionMeansFit(b, ids, roster, rules, tick, roster[leader].at, MinimumLevel(h), answer);
      forall p ensures p in ids <==> p == leader || p in Members(b, leader) {}
    }
  }

  lemma NoObjectionMeansFit(b: Book, ids: seq<PlayerId>, roster: Roster, rules: Rules, tick: u64,
                            at: Position, least: u32, answer: Eligibility)
    requires FirstObjection(b, ids, roster, rules, tick, at, least, answer)
    ensures answer == Eligible <==> forall p | p in ids :: Fit(b, roster, rules, tick, at, least, p)
  {
    forall p ensures Fit(b, roster, rules, tick, at, least, p) <==> Objection(b, roster, rules, tick, at, least, p).Eligible? {}
    if !answer.Eligible? {
      var i :| 0 <= i < |ids| && Objection(b, roster, rules, tick, at, least, ids[i]) == answer;
      assert ids[i] in ids;
    }
  }
}
