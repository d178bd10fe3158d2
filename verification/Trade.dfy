/** Trades between two players: whose consent is fresh, and what changes hands. */
module Trade {
  import opened Prelude
  import opened Items
  import opened Bags

  datatype Reference = Reference(container: ContainerId, index: nat)

  datatype Side = Initiator | Counterparty

  datatype Session = Session(
    initiator: PlayerId,
    counterparty: PlayerId,
    initiatorItems: seq<Reference>,
    counterpartyItems: seq<Reference>,
    initiatorAccepted: bool,
    counterpartyAccepted: bool)

  const MAX_TRADE_ITEMS: nat := 20

  // ----- staging and consent -----

  datatype Event =
    | Stage(side: Side, ref: Reference)
    | Unstage(side: Side, ref: Reference)
    | Accept(side: Side)

  function OfferOf(s: Session, side: Side): seq<Reference> {
    if side.Initiator? then s.initiatorItems else s.counterpartyItems
  }

  /** Either side's change takes back the initiator's acceptance; only the initiator's takes back the other's. */
  function Changed(s: Session, side: Side, offer: seq<Reference>): Session {
    if side.Initiator? then s.(initiatorItems := offer, initiatorAccepted := false, counterpartyAccepted := false)
    else s.(counterpartyItems := offer, initiatorAccepted := false)
  }

  function IndexOf(offer: seq<Reference>, ref: Reference): (i: nat)
    requires ref in offer
    ensures i < |offer| && offer[i] == ref
  {
    if offer[0] == ref then 0 else 1 + IndexOf(offer[1..], ref)
  }

  function Touched(s: Session, e: Event): Result<Session> {
    match e
    case Stage(side, ref) =>
      if |OfferOf(s, side)| >= MAX_TRADE_ITEMS || ref in OfferOf(s, side) then Err
      else Ok(Changed(s, side, OfferOf(s, side) + [ref]))
    case Unstage(side, ref) =>
      if ref !in OfferOf(s, side) then Err
      else Ok(Changed(s, side, Without(OfferOf(s, side), IndexOf(OfferOf(s, side), ref))))
    case Accept(side) =>
      Ok(if side.Initiator? then s.(initiatorAccepted := true) else s.(counterpartyAccepted := true))
  }

  function Opened(initiator: PlayerId, counterparty: PlayerId): Session {
    Session(initiator, counterparty, [], [], false, false)
  }

  /** What a session has become after the events that succeeded in it since it was opened. */
  function Replayed(initiator: PlayerId, counterparty: PlayerId, log: seq<Event>): Result<Session>
    decreases |log|
  {
    if log == [] then Ok(Opened(initiator, counterparty))
    else
      match Replayed(initiator, counterparty, log[..|log| - 1])
      case Err => Err
      case Ok(before) => Touched(before, log[|log| - 1])
  }

  predicate IsChange(e: Event) {
    e.Stage? || e.Unstage?
  }

  /** Which changes an acceptance does not survive. */
  predicate Revokes(side: Side, e: Event) {
    IsChange(e) && (side.Initiator? || e.side.Initiator?)
  }

  /** The side has accepted, and nothing that takes its acceptance back has happened since. */
  predicate Standing(side: Side, log: seq<Event>) {
    exists i :: 0 <= i < |log| && log[i] == Accept(side) && forall j | i < j < |log| :: !Revokes(side, log[j])
  }

  lemma StandingStep(side: Side, log: seq<Event>, e: Event)
    ensures Standing(side, log + [e]) <==> e == Accept(side) || (Standing(side, log) && !Revokes(side, e))
  {
    var all := log + [e];
    assert all[|log|] == e && forall i | 0 <= i < |log| :: all[i] == log[i];
    if Standing(side, all) && e != Accept(side) {
      var i :| 0 <= i < |all| && all[i] == Accept(side) && forall j | i < j < |all| :: !Revokes(side, all[j]);
      assert log[i] == Accept(side) && !Revokes(side, all[|log|]);
      forall j | i < j < |log| ensures !Revokes(side, log[j]) {
        assert !Revokes(side, all[j]);
      }
    }
    if Standing(side, log) && !Revokes(side, e) {
      var i :| 0 <= i < |log| && log[i] == Accept(side) && forall j | i < j < |log| :: !Revokes(side, log[j]);
      assert all[i] == Accept(side);
      forall j | i < j < |all| ensures !Revokes(side, all[j]) {
        assert j < |log| ==> !Revokes(side, log[j]);
      }
    }
    if e == Accept(side) {
      assert all[|log|] == Accept(side);
    }
  }

  /**
   * The flags are exactly the standing acceptances: the initiator's follows every change to either
   * offer, the counterparty's every change to the initiator's.
   */
  lemma {:induction false} FlagsAreStandingConsent(initiator: PlayerId, counterparty: PlayerId, log: seq<Event>)
    requires Replayed(initiator, counterparty, log).Ok?
    ensures var s := Replayed(initiator, counterparty, log).value;
      (s.initiatorAccepted <==> Standing(Side.Initiator, log))
      && (s.counterpartyAccepted <==> Standing(Side.Counterparty, log))
    decreases |log|
  {
    if log != [] {
      var front, e := log[..|log| - 1], log[|log| - 1];
      FlagsAreStandingConsent(initiator, counterparty, front);
      assert log == front + [e];
      StandingStep(Side.Initiator, front, e);
      StandingStep(Side.Counterparty, front, e);
    }
  }

  /** The counterparty's own change leaves its acceptance standing. */
  lemma OwnChangeKeepsTheCounterpartysConsent(s: Session, ref: Reference)
    requires s.counterpartyAccepted && Touched(s, Stage(Counterparty, ref)).Ok?
    ensures var after := Touched(s, Stage(Counterparty, ref)).value;
      after.counterpartyAccepted && Touched(after, Accept(Initiator)).value.initiatorAccepted
      && Touched(after, Accept(Initiator)).value.counterpartyAccepted
  {
  }

  // ----- taking what was offered -----

  datatype Given = Given(ref: Reference, item: Item)

  predicate Has(cs: Containers, ref: Reference) {
    ref.container in cs && ref.index < |cs[ref.container].items|
  }

  function ItemAt(cs: Containers, ref: Reference): Item
    requires Has(cs, ref)
  {
    cs[ref.container].items[ref.index]
  }

  function Less(cs: Containers, ref: Reference): Containers
    requires Has(cs, ref)
  {
    var c := cs[ref.container];
    cs[ref.container := c.(items := Without(c.items, ref.index))]
  }

  datatype Taking = Taking(cs: Containers, given: seq<Given>, ok: bool)

  /** Removing the offered slots one after the other; indices refer to what is left at that moment. */
  function TakeAll(cs: Containers, refs: seq<Reference>): Taking {
    if refs == [] then Taking(cs, [], true)
    else
      var before, ref := TakeAll(cs, refs[..|refs| - 1]), refs[|refs| - 1];
      if !before.ok || !Has(before.cs, ref) then before.(ok := false)
      else Taking(Less(before.cs, ref), before.given + [Given(ref, ItemAt(before.cs, ref))], true)
  }

  /** Restoring appends, if the container is still there and has room. */
  function Pushed(cs: Containers, g: Given): Containers {
    var id := g.ref.container;
    if id in cs && |cs[id].items| < cs[id].capacity then cs[id := cs[id].(items := cs[id].items + [g.item])] else cs
  }

  /** Restoring what was taken, last first. */
  function PutBack(cs: Containers, given: seq<Given>): Containers
    decreases |given|
  {
    if given == [] then cs else PutBack(Pushed(cs, given[|given| - 1]), given[..|given| - 1])
  }

  function GivenUnits(k: Kind, given: seq<Given>): nat {
    if given == [] then 0 else GivenUnits(k, given[..|given| - 1]) + Units(k, given[|given| - 1].item)
  }

  lemma {:induction false} TakingConserves(k: Kind, cs: Containers, refs: seq<Reference>)
    ensures HeldUnits(k, TakeAll(cs, refs).cs, 256) + GivenUnits(k, TakeAll(cs, refs).given) == HeldUnits(k, cs, 256)
  {
    if refs != [] {
      var before, ref := TakeAll(cs, refs[..|refs| - 1]), refs[|refs| - 1];
      TakingConserves(k, cs, refs[..|refs| - 1]);
      if before.ok && Has(before.cs, ref) {
        var c := before.cs[ref.container];
        HeldChanged(k, before.cs, ref.container, c.(items := Without(c.items, ref.index)), 256);
        UnitsWithout(k, c.items, ref.index);
        var all := TakeAll(cs, refs);
        assert all.given[..|all.given| - 1] == before.given;
      }
    }
  }

  /** The same containers, with as many items in each. */
  predicate SameShape(cs: Containers, cs': Containers) {
    cs.Keys == cs'.Keys
    && forall id | id in cs :: |cs[id].items| == |cs'[id].items| && cs[id].capacity == cs'[id].capacity
  }

  predicate Fitting(cs: Containers) {
    forall id | id in cs :: |cs[id].items| <= cs[id].capacity
  }

  lemma {:induction false} TakingKeepsFitting(cs: Containers, refs: seq<Reference>)
    requires Fitting(cs)
    ensures Fitting(TakeAll(cs, refs).cs)
  {
    if refs != [] {
      TakingKeepsFitting(cs, refs[..|refs| - 1]);
    }
  }

  /** Everything taken finds its way back: nothing is lost, though slots may change order. */
  lemma {:induction false} PuttingBackConserves(k: Kind, cs: Containers, refs: seq<Reference>, now: Containers)
    requires Fitting(cs) && TakeAll(cs, refs).ok && SameShape(now, TakeAll(cs, refs).cs)
    ensures HeldUnits(k, PutBack(now, TakeAll(cs, refs).given), 256)
         == HeldUnits(k, now, 256) + GivenUnits(k, TakeAll(cs, refs).given)
    decreases |refs|
  {
    if refs != [] {
      var front, ref := refs[..|refs| - 1], refs[|refs| - 1];
      var before, all := TakeAll(cs, front), TakeAll(cs, refs);
      var g := all.given[|all.given| - 1];
      assert all.given[..|all.given| - 1] == before.given;
      TakingKeepsFitting(cs, front);
      var c := now[ref.container];
      HeldChanged(k, now, ref.container, c.(items := c.items + [g.item]), 256);
      UnitsInConcat(k, c.items, [g.item]);
      UnitsOfOne(k, g.item);
      PuttingBackConserves(k, cs, front, Pushed(now, g));
    }
  }

  // ----- exactly when the staged items are the ones that change hands -----

  /** Two slots of one container are staged from the back to the front. */
  predicate Descending(refs: seq<Reference>) {
    forall i, j | 0 <= i < j < |refs| && refs[i].container == refs[j].container :: refs[i].index > refs[j].index
  }

  predicate AllThere(cs: Containers, refs: seq<Reference>) {
    forall i | 0 <= i < |refs| :: Has(cs, refs[i])
  }

  /** All items in a container are different from one another. */
  predicate Telling(cs: Containers) {
    forall id, i, j | id in cs && 0 <= i < j < |cs[id].items| :: cs[id].items[i] != cs[id].items[j]
  }

  /** The taken items are the ones at the staged slots. */
  predicate Faithful(cs: Containers, refs: seq<Reference>)
    requires AllThere(cs, refs)
  {
    var t := TakeAll(cs, refs);
    t.ok && |t.given| == |refs| && forall i | 0 <= i < |refs| :: t.given[i] == Given(refs[i], ItemAt(cs, refs[i]))
  }

  /** No slot at or before `x` has been removed from this container. */
  predicate Untouched(refs: seq<Reference>, id: ContainerId, x: nat) {
    forall i | 0 <= i < |refs| && refs[i].container == id :: refs[i].index > x
  }

  /** Where the item now at `x` stood originally: at `x` itself exactly if nothing up to it is gone. */
  predicate Origin(was: seq<Item>, now: seq<Item>, x: nat, y: nat, untouched: bool) {
    x < |now| && x <= y < |was| && now[x] == was[y] && (y == x <==> untouched)
  }

  ghost predicate Tracked(cs: Containers, now: Containers, refs: seq<Reference>) {
    && now.Keys == cs.Keys
    && (forall id, x | id in cs && 0 <= x < |now[id].items| :: HasOrigin(cs, now, refs, id, x))
    && forall id, x | id in cs && 0 <= x < |cs[id].items| && Untouched(refs, id, x) :: x < |now[id].items|
  }

  ghost predicate HasOrigin(cs: Containers, now: Containers, refs: seq<Reference>, id: ContainerId, x: nat)
    requires id in cs && id in now
  {
    exists y :: Origin(cs[id].items, now[id].items, x, y, Untouched(refs, id, x))
  }

  lemma UntouchedStep(refs: seq<Reference>, id: ContainerId, x: nat)
    requires refs != []
    ensures Untouched(refs, id, x) <==>
      Untouched(refs[..|refs| - 1], id, x) && (refs[|refs| - 1].container == id ==> refs[|refs| - 1].index > x)
  {
    var front := refs[..|refs| - 1];
    assert forall i | 0 <= i < |front| :: front[i] == refs[i];
  }

  lemma OriginStep(cs: Containers, now: Containers, refs: seq<Reference>, id: ContainerId, x: nat)
    requires refs != [] && Tracked(cs, now, refs[..|refs| - 1]) && Has(now, refs[|refs| - 1])
    requires id in cs && x < |Less(now, refs[|refs| - 1])[id].items|
    ensures HasOrigin(cs, Less(now, refs[|refs| - 1]), refs, id, x)
  {
    var front, ref := refs[..|refs| - 1], refs[|refs| - 1];
    var after := Less(now, ref);
    UntouchedStep(refs, id, x);
    var at := if id == ref.container && x >= ref.index then x + 1 else x;
    assert HasOrigin(cs, now, front, id, at);
    var y :| Origin(cs[id].items, now[id].items, at, y, Untouched(front, id, at));
    assert after[id].items[x] == now[id].items[at];
    assert Origin(cs[id].items, after[id].items, x, y, Untouched(refs, id, x));
  }

  /** Removals only move later items forward. */
  lemma TrackedStep(cs: Containers, now: Containers, refs: seq<Reference>)
    requires refs != [] && Tracked(cs, now, refs[..|refs| - 1]) && Has(now, refs[|refs| - 1])
    ensures Tracked(cs, Less(now, refs[|refs| - 1]), refs)
  {
    var after := Less(now, refs[|refs| - 1]);
    forall id, x | id in cs && 0 <= x < |after[id].items| ensures HasOrigin(cs, after, refs, id, x) {
      OriginStep(cs, now, refs, id, x);
    }
    forall id, x | id in cs && 0 <= x < |cs[id].items| && Untouched(refs, id, x) ensures x < |after[id].items| {
      UntouchedStep(refs, id, x);
    }
  }

  lemma {:induction false} TakingIsTracked(cs: Containers, refs: seq<Reference>)
    requires TakeAll(cs, refs).ok
    ensures Tracked(cs, TakeAll(cs, refs).cs, refs)
  {
    if refs == [] {
      forall id, x | id in cs && 0 <= x < |cs[id].items| ensures HasOrigin(cs, cs, refs, id, x) {
        assert Origin(cs[id].items, cs[id].items, x, x, Untouched(refs, id, x));
      }
    } else {
      TakingIsTracked(cs, refs[..|refs| - 1]);
      TrackedStep(cs, TakeAll(cs, refs[..|refs| - 1]).cs, refs);
    }
  }

  /** The last slot lies before all earlier ones of its container exactly if none of them reaches up to it. */
  lemma DescendingStep(refs: seq<Reference>)
    requires refs != []
    ensures Descending(refs) <==>
      Descending(refs[..|refs| - 1]) && Untouched(refs[..|refs| - 1], refs[|refs| - 1].container, refs[|refs| - 1].index)
  {
    var front := refs[..|refs| - 1];
    assert forall i | 0 <= i < |front| :: front[i] == refs[i];
  }

  lemma FaithfulStep(cs: Containers, refs: seq<Reference>)
    requires refs != [] && AllThere(cs, refs)
    ensures var front, ref := refs[..|refs| - 1], refs[|refs| - 1];
      AllThere(cs, front) &&
      (Faithful(cs, refs) <==>
        Faithful(cs, front) && Has(TakeAll(cs, front).cs, ref) && ItemAt(TakeAll(cs, front).cs, ref) == ItemAt(cs, ref))
  {
    var front, ref := refs[..|refs| - 1], refs[|refs| - 1];
    var before, all := TakeAll(cs, front), TakeAll(cs, refs);
    assert forall i | 0 <= i < |front| :: front[i] == refs[i];
    if before.ok && Has(before.cs, ref) && |before.given| == |front| {
      assert forall i | 0 <= i < |front| :: all.given[i] == before.given[i];
      assert all.given[|front|] == Given(ref, ItemAt(before.cs, ref));
    }
  }

  /** Staging each container's slots from the back to the front hands over exactly the staged items. */
  lemma {:induction false} DescendingIsFaithful(cs: Containers, refs: seq<Reference>)
    requires AllThere(cs, refs) && Descending(refs)
    ensures Faithful(cs, refs)
  {
    if refs != [] {
      var front, ref := refs[..|refs| - 1], refs[|refs| - 1];
      FaithfulStep(cs, refs);
      DescendingStep(refs);
      DescendingIsFaithful(cs, front);
      TakingIsTracked(cs, front);
      assert HasOrigin(cs, TakeAll(cs, front).cs, front, ref.container, ref.index);
    }
  }

  /** And where all items differ, nothing else does. */
  lemma {:induction false} FaithfulExactlyIfDescending(cs: Containers, refs: seq<Reference>)
    requires AllThere(cs, refs) && Telling(cs)
    ensures Faithful(cs, refs) <==> Descending(refs)
  {
    if refs != [] {
      var front, ref := refs[..|refs| - 1], refs[|refs| - 1];
      FaithfulStep(cs, refs);
      DescendingStep(refs);
      FaithfulExactlyIfDescending(cs, front);
      if Descending(refs) {
        DescendingIsFaithful(cs, refs);
      }
      if Faithful(cs, refs) {
        TakingIsTracked(cs, front);
        InPlaceMeansUntouched(cs, TakeAll(cs, front).cs, front, ref);
      }
    }
  }

  lemma InPlaceMeansUntouched(cs: Containers, now: Containers, refs: seq<Reference>, ref: Reference)
    requires Tracked(cs, now, refs) && Telling(cs) && Has(cs, ref) && Has(now, ref)
    requires ItemAt(now, ref) == ItemAt(cs, ref)
    ensures Untouched(refs, ref.container, ref.index)
  {
    var id, x := ref.container, ref.index;
    assert HasOrigin(cs, now, refs, id, x);
    var y: nat :| Origin(cs[id].items, now[id].items, x, y, Untouched(refs, id, x));
    assert cs[id].items[y] == cs[id].items[x];
  }

  lemma TakeOne(cs: Containers, ref: Reference)
    requires Has(cs, ref)
    ensures TakeAll(cs, [ref]) == Taking(Less(cs, ref), [Given(ref, ItemAt(cs, ref))], true)
  {
    var refs := [ref];
    assert refs[..0] == [];
    assert TakeAll(cs, refs[..0]) == Taking(cs, [], true);
    assert [] + [Given(ref, ItemAt(cs, ref))] == [Given(ref, ItemAt(cs, ref))];
  }

  // ----- an input on which other items change hands -----

  const SWORD := Item(2376, 1, None, None, [])
  const SHIELD := Item(2512, 1, None, None, [])
  const HELMET := Item(2460, 1, None, None, [])
  const RACK: Containers := map[0 := Container(8, false, [SWORD, SHIELD, HELMET])]

  /** Sword and shield are staged in ascending order; sword and helmet are handed over. */
  lemma AscendingHandsOverAnother()
    ensures var refs := [Reference(0, 0), Reference(0, 1)];
      && AllThere(RACK, refs) && ItemAt(RACK, refs[1]) == SHIELD
      && TakeAll(RACK, refs).given == [Given(refs[0], SWORD), Given(refs[1], HELMET)] && !Faithful(RACK, refs)
  {
    var refs := [Reference(0, 0), Reference(0, 1)];
    assert refs[..1] == [refs[0]];
    TakeOne(RACK, refs[0]);
    var first := TakeAll(RACK, refs[..1]);
    assert first.cs[0].items == [SHIELD, HELMET];
    assert TakeAll(RACK, refs).given[1] == Given(refs[1], HELMET);
  }
}
