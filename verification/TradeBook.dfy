/**
 * The open trades of a world: who may change what, and what has to have happened before one executes.
 * A log of events stands beside each session, and its flags always say what the log implies.
 */
module TradeBooks {
  import opened Prelude
  import opened Items
  import opened Bags
  import opened Trade
  import opened TradeExecution
  import opened Offers

  type Sessions = map<PlayerId, Session>
  type Logs = map<PlayerId, seq<Event>>

  /** Every open session is filed under its initiator and is what its log says. */
  ghost predicate Recorded(active: Sessions, log: Logs) {
    && log.Keys == active.Keys
    && forall k | k in active :: Matches(k, active[k], log[k])
  }

  ghost predicate Matches(k: PlayerId, s: Session, log: seq<Event>) {
    s.initiator == k && s.counterparty != k && Replayed(k, s.counterparty, log) == Ok(s)
  }

  lemma LoggedStep(k: PlayerId, s: Session, log: seq<Event>, e: Event)
    requires Matches(k, s, log) && Touched(s, e).Ok?
    ensures Matches(k, Touched(s, e).value, log + [e])
  {
    assert (log + [e])[..|log|] == log;
  }

  predicate IsCounterpartyIn(active: Sessions, k: PlayerId, p: PlayerId) {
    k in active && active[k].counterparty == p
  }

  /** The key under which a player's trade is found: his own first, then the lowest that names him. */
  ghost predicate Finds(active: Sessions, p: PlayerId, key: Option<PlayerId>) {
    if p in active then key == Some(p)
    else
      match key
      case None => forall k :: !IsCounterpartyIn(active, k, p)
      case Some(k) => IsCounterpartyIn(active, k, p) && forall other: PlayerId | other < k :: !IsCounterpartyIn(active, other, p)
  }

  function SideOf(s: Session, p: PlayerId): Side {
    if s.initiator == p then Side.Initiator else Side.Counterparty
  }

  /** Both acceptances stand: the initiator's after every change, the other's after every change of the initiator's. */
  ghost predicate FreshConsent(log: seq<Event>) {
    Standing(Side.Initiator, log) && Standing(Side.Counterparty, log)
  }

  /** The offer of a player in a session. */
  function OfferBy(s: Session, p: PlayerId): seq<Reference> {
    OfferOf(s, SideOf(s, p))
  }

  lemma StagedAtTheEnd(s: Session, p: PlayerId, ref: Reference)
    requires Touched(s, Event.Stage(SideOf(s, p), ref)).Ok?
    ensures var after := Touched(s, Event.Stage(SideOf(s, p), ref)).value;
      SideOf(after, p) == SideOf(s, p) && OfferBy(after, p) == OfferBy(s, p) + [ref]
  {
  }

  /** Both offers of every open session are what its log shows. */
  lemma RecordedOffersStand(active: Sessions, log: Logs, k: PlayerId)
    requires Recorded(active, log) && k in active
    ensures OfferStands(active[k], log[k], Side.Initiator) && OfferStands(active[k], log[k], Side.Counterparty)
  {
    assert Matches(k, active[k], log[k]);
    OffersAreTheStandingStagings(k, active[k].counterparty, log[k], active[k], Side.Initiator);
    OffersAreTheStandingStagings(k, active[k].counterparty, log[k], active[k], Side.Counterparty);
  }

  class TradeBook {
    var online: set<PlayerId>
    var dead: set<PlayerId>
    var holdings: Holdings
    var active: Sessions
    ghost var log: Logs

    ghost predicate Valid()
      reads this
    {
      Recorded(active, log)
    }

    constructor (players: set<PlayerId>, h: Holdings)
      ensures Valid() && active == map[] && holdings == h && online == players && dead == {}
    {
      online, dead, holdings, active, log := players, {}, h, map[], map[];
    }

    method Open(initiator: PlayerId, counterparty: PlayerId) returns (r: Result<()>)
      requires Valid()
      modifies this`active, this`log
      ensures Valid()
      ensures r.Ok? <==>
        && initiator != counterparty && {initiator, counterparty} <= online && {initiator, counterparty} !! dead
        && initiator !in old(active) && counterparty !in old(active)
      ensures r.Ok? ==> active == old(active)[initiator := Opened(initiator, counterparty)]
                        && log == old(log)[initiator := []]
      ensures r.Err? ==> unchanged(this)
    {
      if initiator == counterparty || initiator !in online || initiator in dead || counterparty !in online
         || counterparty in dead || initiator in active || counterparty in active {
        return Err;
      }
      active := active[initiator := Opened(initiator, counterparty)];
      log := log[initiator := []];
      return Ok(());
    }

    /** Finds a player's trade. */
    method Find(p: PlayerId) returns (key: Option<PlayerId>)
      ensures Finds(active, p, key)
      ensures key.Some? ==> key.value in active
    {
      if p in active {
        return Some(p);
      }
      var keys: seq<PlayerId> := VisitOrder(active.Keys);
      for i := 0 to |keys|
        invariant forall j | 0 <= j < i :: !IsCounterpartyIn(active, keys[j], p)
      {
        if active[keys[i]].counterparty == p {
          assert forall other | other < keys[i] && other in active :: other in keys;
          return Some(keys[i]);
        }
      }
      assert forall k | k in active :: k in keys;
      return None;
    }

    /** Applies an event to one session, or refuses it without effect. */
    method Touch(key: PlayerId, e: Event) returns (r: Result<()>)
      requires Valid() && key in active
      modifies this`active, this`log
      ensures Valid()
      ensures match Touched(old(active)[key], e)
              case Err => r.Err? && unchanged(this)
              case Ok(s) => r.Ok? && active == old(active)[key := s] && log == old(log)[key := old(log)[key] + [e]]
    {
      var touched := Touched(active[key], e);
      if touched.Err? {
        return Err;
      }
      LoggedStep(key, active[key], log[key], e);
      active := active[key := touched.value];
      log := log[key := log[key] + [e]];
      return Ok(());
    }

    /** Stages an item at the end of the player's offer, unless it lists it already or is full; returns its size. */
    method StageItem(p: PlayerId, ref: Reference) returns (r: Result<nat>, ghost key: Option<PlayerId>)
      requires Valid()
      modifies this`active, this`log
      ensures Valid() && Finds(old(active), p, key)
      ensures r.Ok? <==>
        && key.Some? && key.value in old(active)
        && |OfferBy(old(active)[key.value], p)| < 20 && ref !in OfferBy(old(active)[key.value], p)
      ensures r.Ok? ==>
        && key.value in active
        && Ok(active[key.value]) == Touched(old(active)[key.value], Event.Stage(SideOf(old(active)[key.value], p), ref))
        && active == old(active)[key.value := active[key.value]]
        && key.value in old(log)
        && log == old(log)[key.value := old(log)[key.value] + [Event.Stage(SideOf(old(active)[key.value], p), ref)]]
        && OfferBy(active[key.value], p) == OfferBy(old(active)[key.value], p) + [ref]
        && OfferStands(active[key.value], log[key.value], SideOf(active[key.value], p))
        && r.value == |OfferBy(active[key.value], p)|
      ensures r.Err? ==> unchanged(this)
    {
      var found := Find(p);
      key := found;
      if found.None? {
        return Err, key;
      }
      var side := SideOf(active[found.value], p);
      RecordedOffersStand(active, log, found.value);
      RefusedExactly(active[found.value], side, ref);
      var touched := Touch(found.value, Event.Stage(side, ref));
      if touched.Err? {
        return Err, key;
      }
      StagedAtTheEnd(old(active)[found.value], p, ref);
      RecordedOffersStand(active, log, found.value);
      return Ok(|OfferOf(active[found.value], side)|), key;
    }

    /** Takes an item back out of the player's offer, unless it is not on it. */
    method UnstageItem(p: PlayerId, ref: Reference) returns (r: Result<()>, ghost key: Option<PlayerId>)
      requires Valid()
      modifies this`active, this`log
      ensures Valid() && Finds(old(active), p, key)
      ensures r.Ok? <==> key.Some? && key.value in old(active) && ref in OfferBy(old(active)[key.value], p)
      ensures r.Ok? ==>
        && key.value in active
        && Ok(active[key.value]) == Touched(old(active)[key.value], Event.Unstage(SideOf(old(active)[key.value], p), ref))
        && active == old(active)[key.value := active[key.value]]
        && key.value in old(log)
        && log == old(log)[key.value := old(log)[key.value] + [Event.Unstage(SideOf(old(active)[key.value], p), ref)]]
        && OfferStands(active[key.value], log[key.value], SideOf(active[key.value], p))
      ensures r.Err? ==> unchanged(this)
    {
      var found := Find(p);
      key := found;
      if found.None? {
        return Err, key;
      }
      RefusedExactly(active[found.value], SideOf(active[found.value], p), ref);
      r := Touch(found.value, Event.Unstage(SideOf(active[found.value], p), ref));
      RecordedOffersStand(active, log, found.value);
    }

    /** Accepts; true once both sides' acceptances stand. */
    method AcceptTrade(p: PlayerId) returns (r: Result<bool>, ghost key: Option<PlayerId>)
      requires Valid()
      modifies this`active, this`log
      ensures Valid() && Finds(old(active), p, key)
      ensures r.Ok? <==> key.Some?
      ensures r.Ok? ==>
        && key.value in old(active) && key.value in active
        && Ok(active[key.value]) == Touched(old(active)[key.value], Event.Accept(SideOf(old(active)[key.value], p)))
        && active == old(active)[key.value := active[key.value]]
        && key.value in old(log)
        && log == old(log)[key.value := old(log)[key.value] + [Event.Accept(SideOf(old(active)[key.value], p))]]
        && (r.value <==> FreshConsent(log[key.value]))
      ensures r.Err? ==> unchanged(this)
    {
      var found := Find(p);
      key := found;
      if found.None? {
        return Err, key;
      }
      var touched := Touch(found.value, Event.Accept(SideOf(active[found.value], p)));
      var s := active[found.value];
      assert Matches(found.value, s, log[found.value]);
      FlagsAreStandingConsent(found.value, s.counterparty, log[found.value]);
      return Ok(s.initiatorAccepted && s.counterpartyAccepted), key;
    }

    /** Closes a player's trade. Called by the counterparty it hands back the caller's own id. */
    method Cancel(p: PlayerId) returns (other: Option<PlayerId>, ghost key: Option<PlayerId>)
      requires Valid()
      modifies this`active, this`log
      ensures Valid() && Finds(old(active), p, key)
      ensures other.Some? <==> key.Some?
      ensures key.Some? ==> active == old(active) - {key.value} && log == old(log) - {key.value}
      ensures key.None? ==> unchanged(this)
      ensures p in old(active) ==> other == Some(old(active)[p].counterparty)
      ensures p !in old(active) && key.Some? ==> other == Some(p)
    {
      var found := Find(p);
      key := found;
      if found.None? {
        return None, key;
      }
      other := Some(if p in active then active[p].counterparty else p);
      active := active - {found.value};
      log := log - {found.value};
    }

    /**
     * Executes a trade. It goes ahead only with both consents fresh, and leaves the holdings that
     * `Executed` describes. Success closes the session, and with it any trade the counterparty has
     * opened himself.
     */
    method Execute(p: PlayerId) returns (r: Result<()>, ghost key: Option<PlayerId>)
      requires Valid()
      modifies this`active, this`log, this`holdings
      ensures Valid() && Finds(old(active), p, key)
      ensures holdings != old(holdings) || r.Ok? ==>
        key.Some? && key.value in old(log) && key.value in old(active) && FreshConsent(old(log)[key.value])
      ensures key.Some? && key.value in old(log) && key.value in old(active) && FreshConsent(old(log)[key.value]) ==>
        var s := old(active)[key.value];
        && holdings == Executed(old(holdings), s).holdings
        && (r.Ok? <==> Executed(old(holdings), s).verdict.Done?)
        && (r.Ok? ==> active == old(active) - {s.initiator, s.counterparty} && log == old(log) - {s.initiator, s.counterparty})
      ensures r.Err? ==> active == old(active) && log == old(log)
    {
      var found := Find(p);
      key := found;
      if found.None? {
        return Err, key;
      }
      var s := active[found.value];
      assert Matches(found.value, s, log[found.value]);
      FlagsAreStandingConsent(found.value, s.counterparty, log[found.value]);
      if !(s.initiatorAccepted && s.counterpartyAccepted) {
        return Err, key;
      }
      var done := Swap(s);
      if !done {
        return Err, key;
      }
      active := active - {s.initiator, s.counterparty};
      log := log - {s.initiator, s.counterparty};
      return Ok(()), key;
    }

    /** The three passes over the live holdings. */
    method Swap(s: Session) returns (done: bool)
      requires s.initiator != s.counterparty
      modifies this`holdings
      ensures holdings == Executed(old(holdings), s).holdings
      ensures done <==> Executed(old(holdings), s).verdict.Done?
    {
      var a, b := CsOf(holdings, s.initiator), CsOf(holdings, s.counterparty);
      var thereA := Resolve(a, s.initiatorItems);
      var thereB := Resolve(b, s.counterpartyItems);
      if !thereA || !thereB {
        return false;
      }
      var nowA, givenA, okA := RemoveOffered(a, s.initiatorItems);
      if !okA {
        holdings := Put(holdings, s.initiator, nowA);
        return false;
      }
      var nowB, givenB, okB := RemoveOffered(b, s.counterpartyItems);
      if !okB {
        var restored := Restore(nowA, givenA);
        holdings := Put(holdings, s.counterparty, nowB);
        holdings := Put(holdings, s.initiator, restored);
        return false;
      }
      done := Hand(s, Taking(nowA, givenA, true), Taking(nowB, givenB, true));
    }

    method Hand(s: Session, ta: Taking, tb: Taking) returns (done: bool)
      modifies this`holdings
      ensures holdings == Delivered(old(holdings), s, ta, tb).holdings
      ensures done <==> Delivered(old(holdings), s, ta, tb).verdict.Done?
    {
      var gotA, okA := Deliver(ta.cs, ItemsOf(tb.given));
      holdings := Put(holdings, s.initiator, gotA);
      if !okA {
        holdings := Put(holdings, s.counterparty, tb.cs);
        return false;
      }
      var gotB, okB := Deliver(tb.cs, ItemsOf(ta.given));
      holdings := Put(holdings, s.counterparty, gotB);
      return okB;
    }
  }
}
