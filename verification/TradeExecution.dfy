/** Carrying out an accepted trade: take from both sides, then deliver to both. */
module TradeExecution {
  import opened Prelude
  import opened Items
  import opened Bags
  import opened Trade

  type Holdings = map<PlayerId, Containers>

  // ----- delivering -----

  /** The first container, in order, that takes the item. */
  function DeliverOne(ids: seq<ContainerId>, cs: Containers, item: Item): Result<Containers>
    requires forall id | id in ids :: id in cs
  {
    if ids == [] then Err
    else if Stacked(cs[ids[0]], item).Ok? then Ok(cs[ids[0] := Stacked(cs[ids[0]], item).value])
    else DeliverOne(ids[1..], cs, item)
  }

  /** Whether that container merges it, so that its contents are dropped. */
  predicate MergesOnArrival(ids: seq<ContainerId>, cs: Containers, item: Item)
    requires forall id | id in ids :: id in cs
  {
    if ids == [] then false
    else if Stacked(cs[ids[0]], item).Ok? then Merges(cs[ids[0]], item)
    else MergesOnArrival(ids[1..], cs, item)
  }

  /** Containers after a delivery, and what was left over when it stopped. */
  datatype Delivery = Delivery(cs: Containers, left: seq<Item>)

  ghost function DeliverAll(cs: Containers, items: seq<Item>): Delivery
    decreases |items|
  {
    if items == [] then Delivery(cs, [])
    else
      match DeliverOne(Ascending(cs.Keys), cs, items[0])
      case Err => Delivery(cs, items)
      case Ok(next) => DeliverAll(next, items[1..])
  }

  /** The contents that merging drops on the way. */
  ghost function Spilled(cs: Containers, items: seq<Item>): seq<Item>
    decreases |items|
  {
    if items == [] then []
    else
      match DeliverOne(Ascending(cs.Keys), cs, items[0])
      case Err => []
      case Ok(next) =>
        (if MergesOnArrival(Ascending(cs.Keys), cs, items[0]) then items[0].contents else []) + Spilled(next, items[1..])
  }

  predicate SoundContainers(cs: Containers) {
    forall id | id in cs :: SoundContainer(cs[id])
  }

  lemma {:induction false} DeliveringOneAdds(k: Kind, ids: seq<ContainerId>, cs: Containers, item: Item)
    requires (forall id | id in ids :: id in cs) && DeliverOne(ids, cs, item).Ok?
    ensures HeldUnits(k, DeliverOne(ids, cs, item).value, 256)
              + (if MergesOnArrival(ids, cs, item) then UnitsIn(k, item.contents) else 0)
         == HeldUnits(k, cs, 256) + Units(k, item)
    ensures SoundContainers(cs) && SoundItem(item) ==> SoundContainers(DeliverOne(ids, cs, item).value)
  {
    var id := ids[0];
    if Stacked(cs[id], item).Ok? {
      StackingAdds(k, cs[id], item);
      HeldChanged(k, cs, id, Stacked(cs[id], item).value, 256);
      if SoundContainers(cs) && SoundItem(item) {
        StackingIsSound(cs[id], item);
      }
    } else {
      DeliveringOneAdds(k, ids[1..], cs, item);
    }
  }

  lemma FirstUnits(k: Kind, items: seq<Item>)
    requires items != []
    ensures UnitsIn(k, items) == Units(k, items[0]) + UnitsIn(k, items[1..])
  {
    assert items == [items[0]] + items[1..];
    UnitsInConcat(k, [items[0]], items[1..]);
    UnitsOfOne(k, items[0]);
  }

  /** Delivered, left over or spilled: every unit is somewhere. */
  lemma {:induction false} DeliveryIsAccountedFor(k: Kind, cs: Containers, items: seq<Item>)
    ensures var d := DeliverAll(cs, items);
      HeldUnits(k, d.cs, 256) + UnitsIn(k, d.left) + UnitsIn(k, Spilled(cs, items)) == HeldUnits(k, cs, 256) + UnitsIn(k, items)
    decreases |items|
  {
    if items != [] {
      var ids := Ascending(cs.Keys);
      FirstUnits(k, items);
      if DeliverOne(ids, cs, items[0]).Ok? {
        var next := DeliverOne(ids, cs, items[0]).value;
        var dropped := if MergesOnArrival(ids, cs, items[0]) then items[0].contents else [];
        DeliveringOneAdds(k, ids, cs, items[0]);
        DeliveryIsAccountedFor(k, next, items[1..]);
        UnitsInConcat(k, dropped, Spilled(next, items[1..]));
      }
    }
  }

  /** Plain items, which hold nothing, spill nothing. */
  lemma {:induction false} PlainItemsSpillNothing(cs: Containers, items: seq<Item>)
    requires forall x | x in items :: x.contents == []
    ensures Spilled(cs, items) == []
    decreases |items|
  {
    if items != [] && DeliverOne(Ascending(cs.Keys), cs, items[0]).Ok? {
      PlainItemsSpillNothing(DeliverOne(Ascending(cs.Keys), cs, items[0]).value, items[1..]);
    }
  }

  /** Item `i` of a delivery holds something, and merges into a stack that has room when it arrives. */
  ghost predicate SpillsAt(cs: Containers, items: seq<Item>, i: nat)
    requires i < |items|
  {
    var now := DeliverAll(cs, items[..i]).cs;
    items[i].contents != [] && MergesOnArrival(Ascending(now.Keys), now, items[i])
  }

  ghost predicate SpillsSomewhere(cs: Containers, items: seq<Item>) {
    exists i :: 0 <= i < |items| && SpillsAt(cs, items, i)
  }

  /** A delivery that arrives loses contents exactly if some item spills. */
  lemma {:induction false} SpilledExactlyIfSomewhere(cs: Containers, items: seq<Item>)
    requires DeliverAll(cs, items).left == []
    ensures Spilled(cs, items) != [] <==> SpillsSomewhere(cs, items)
    decreases |items|
  {
    if items != [] {
      var next, rest := DeliverOne(Ascending(cs.Keys), cs, items[0]).value, items[1..];
      SpilledExactlyIfSomewhere(next, rest);
      assert items[..0] == [];
      assert SpillsAt(cs, items, 0) <==> items[0].contents != [] && MergesOnArrival(Ascending(cs.Keys), cs, items[0]);
      forall i | 0 <= i < |rest| ensures SpillsAt(next, rest, i) <==> SpillsAt(cs, items, i + 1) {
        assert items[..i + 1][0] == items[0] && items[..i + 1][1..] == rest[..i];
      }
      if SpillsSomewhere(next, rest) {
        var i :| 0 <= i < |rest| && SpillsAt(next, rest, i);
        assert SpillsAt(cs, items, i + 1);
      }
      if i :| 0 <= i < |items| && SpillsAt(cs, items, i) {
        assert i > 0 ==> SpillsAt(next, rest, i - 1);
      }
    }
  }

  // ----- the whole execution -----

  function CsOf(h: Holdings, p: PlayerId): Containers {
    if p in h then h[p] else map[]
  }

  function Put(h: Holdings, p: PlayerId, cs: Containers): Holdings {
    if p in h then h[p := cs] else h
  }

  function ItemsOf(given: seq<Given>): seq<Item> {
    seq(|given|, i requires 0 <= i < |given| => given[i].item)
  }

  datatype Verdict = Missing | Displaced | NoRoom | Done

  /** The holdings afterwards, how it ended, and what was lost on the way. */
  datatype Outcome = Outcome(holdings: Holdings, verdict: Verdict, lost: seq<Item>)

  ghost function Executed(h: Holdings, s: Session): Outcome {
    var a, b := CsOf(h, s.initiator), CsOf(h, s.counterparty);
    if !AllThere(a, s.initiatorItems) || !AllThere(b, s.counterpartyItems) then Outcome(h, Missing, [])
    else
      var ta, tb := TakeAll(a, s.initiatorItems), TakeAll(b, s.counterpartyItems);
      if !ta.ok then Outcome(Put(h, s.initiator, PutBack(ta.cs, ta.given)), Displaced, [])
      else if !tb.ok then
        Outcome(Put(Put(h, s.counterparty, PutBack(tb.cs, tb.given)), s.initiator, PutBack(ta.cs, ta.given)), Displaced, [])
      else Delivered(h, s, ta, tb)
  }

  ghost function Delivered(h: Holdings, s: Session, ta: Taking, tb: Taking): Outcome {
    var da := DeliverAll(ta.cs, ItemsOf(tb.given));
    var spilled := Spilled(ta.cs, ItemsOf(tb.given));
    if da.left != [] then
      Outcome(Put(Put(h, s.initiator, da.cs), s.counterparty, tb.cs), NoRoom, spilled + da.left + ItemsOf(ta.given))
    else
      var db := DeliverAll(tb.cs, ItemsOf(ta.given));
      Outcome(Put(Put(h, s.initiator, da.cs), s.counterparty, db.cs), if db.left != [] then NoRoom else Done,
              spilled + Spilled(tb.cs, ItemsOf(ta.given)) + db.left)
  }

  function Both(k: Kind, h: Holdings, s: Session): nat {
    HeldUnits(k, CsOf(h, s.initiator), 256) + HeldUnits(k, CsOf(h, s.counterparty), 256)
  }

  lemma {:induction false} GivenAreItems(k: Kind, given: seq<Given>)
    ensures GivenUnits(k, given) == UnitsIn(k, ItemsOf(given))
  {
    if given != [] {
      GivenAreItems(k, given[..|given| - 1]);
      assert ItemsOf(given)[..|given| - 1] == ItemsOf(given[..|given| - 1]);
    }
  }

  /** A failed take that restores what it took holds what it held. */
  lemma {:induction false} RestoredUnits(k: Kind, cs: Containers, refs: seq<Reference>)
    requires Fitting(cs)
    ensures HeldUnits(k, PutBack(TakeAll(cs, refs).cs, TakeAll(cs, refs).given), 256) == HeldUnits(k, cs, 256)
  {
    var t := TakeAll(cs, refs);
    if t.ok {
      PuttingBackConserves(k, cs, refs, t.cs);
      TakingConserves(k, cs, refs);
    } else {
      RestoredUnits(k, cs, refs[..|refs| - 1]);
    }
  }

  predicate AllFitting(h: Holdings) {
    forall p | p in h :: Fitting(h[p])
  }

  /** Whoever is not online holds nothing, and nothing can be taken from him. */
  lemma NothingFromNobody(h: Holdings, p: PlayerId, refs: seq<Reference>)
    requires p !in h && AllThere(CsOf(h, p), refs)
    ensures refs == []
  {
    assert refs != [] ==> Has(CsOf(h, p), refs[0]);
  }

  /**
   * The balance of every execution, whatever its verdict: the two players hold what they held, less
   * what the outcome lists as lost. Nothing is lost unless a delivery was reached.
   */
  lemma TradesAreAccountedFor(k: Kind, h: Holdings, s: Session)
    requires s.initiator != s.counterparty && AllFitting(h)
    ensures Both(k, Executed(h, s).holdings, s) + UnitsIn(k, Executed(h, s).lost) == Both(k, h, s)
    ensures Executed(h, s).verdict.Missing? || Executed(h, s).verdict.Displaced? ==> Executed(h, s).lost == []
  {
    var a, b := CsOf(h, s.initiator), CsOf(h, s.counterparty);
    if AllThere(a, s.initiatorItems) && AllThere(b, s.counterpartyItems) {
      var ta, tb := TakeAll(a, s.initiatorItems), TakeAll(b, s.counterpartyItems);
      RestoredUnits(k, a, s.initiatorItems);
      RestoredUnits(k, b, s.counterpartyItems);
      if s.initiator !in h {
        NothingFromNobody(h, s.initiator, s.initiatorItems);
      }
      if s.counterparty !in h {
        NothingFromNobody(h, s.counterparty, s.counterpartyItems);
      }
      if ta.ok && tb.ok {
        DeliveredIsAccountedFor(k, h, s, ta, tb);
        TakingConserves(k, a, s.initiatorItems);
        TakingConserves(k, b, s.counterpartyItems);
      }
    }
  }

  lemma {:induction false} NothingIsHeld(k: Kind, n: nat)
    ensures HeldUnits(k, map[], n) == 0
  {
    if n > 0 {
      NothingIsHeld(k, n - 1);
    }
  }

  lemma BothAfterPut(k: Kind, h: Holdings, s: Session, ca: Containers, cb: Containers)
    requires s.initiator != s.counterparty
    requires (s.initiator !in h ==> ca == map[]) && (s.counterparty !in h ==> cb == map[])
    ensures Both(k, Put(Put(h, s.initiator, ca), s.counterparty, cb), s) == HeldUnits(k, ca, 256) + HeldUnits(k, cb, 256)
  {
    NothingIsHeld(k, 256);
  }

  lemma DeliveredIsAccountedFor(k: Kind, h: Holdings, s: Session, ta: Taking, tb: Taking)
    requires s.initiator != s.counterparty
    requires s.initiator !in h ==> ta.cs == map[] && ta.given == []
    requires s.counterparty !in h ==> tb.cs == map[] && tb.given == []
    ensures var after := Delivered(h, s, ta, tb);
      Both(k, after.holdings, s) + UnitsIn(k, after.lost)
        == HeldUnits(k, ta.cs, 256) + GivenUnits(k, ta.given) + HeldUnits(k, tb.cs, 256) + GivenUnits(k, tb.given)
  {
    var toA, toB := ItemsOf(tb.given), ItemsOf(ta.given);
    var da, db := DeliverAll(ta.cs, toA), DeliverAll(tb.cs, toB);
    GivenAreItems(k, ta.given);
    GivenAreItems(k, tb.given);
    DeliveryIsAccountedFor(k, ta.cs, toA);
    NobodyReceives(toA);
    NobodyReceives(toB);
    if da.left != [] {
      UnitsInConcat(k, Spilled(ta.cs, toA) + da.left, toB);
      UnitsInConcat(k, Spilled(ta.cs, toA), da.left);
      BothAfterPut(k, h, s, da.cs, tb.cs);
    } else {
      DeliveryIsAccountedFor(k, tb.cs, toB);
      UnitsInConcat(k, Spilled(ta.cs, toA) + Spilled(tb.cs, toB), db.left);
      UnitsInConcat(k, Spilled(ta.cs, toA), Spilled(tb.cs, toB));
      BothAfterPut(k, h, s, da.cs, db.cs);
    }
  }

  /** Without containers nothing arrives, and nothing changes. */
  lemma NobodyReceives(items: seq<Item>)
    ensures DeliverAll(map[], items) == Delivery(map[], items)
  {
    var none: Containers := map[];
    SameList(Ascending(none.Keys), []);
  }

  /** On success, items that hold nothing change hands without loss. */
  lemma PlainTradesConserve(k: Kind, h: Holdings, s: Session)
    requires s.initiator != s.counterparty && AllFitting(h) && Executed(h, s).verdict.Done?
    requires forall g | g in HandedOver(h, s) :: g.item.contents == []
    ensures Both(k, Executed(h, s).holdings, s) == Both(k, h, s)
  {
    var ta, tb := TakeAll(CsOf(h, s.initiator), s.initiatorItems), TakeAll(CsOf(h, s.counterparty), s.counterpartyItems);
    TradesAreAccountedFor(k, h, s);
    PlainOnes(ta.given);
    PlainOnes(tb.given);
    PlainItemsSpillNothing(ta.cs, ItemsOf(tb.given));
    PlainItemsSpillNothing(tb.cs, ItemsOf(ta.given));
  }

  lemma PlainOnes(given: seq<Given>)
    requires forall g | g in given :: g.item.contents == []
    ensures forall x | x in ItemsOf(given) :: x.contents == []
  {
  }

  /** Everything the two sides give. */
  function HandedOver(h: Holdings, s: Session): seq<Given> {
    TakeAll(CsOf(h, s.initiator), s.initiatorItems).given + TakeAll(CsOf(h, s.counterparty), s.counterpartyItems).given
  }

  /** A success leaves nothing undelivered: what was lost is exactly contents dropped by merging. */
  lemma SuccessLosesOnlyContents(h: Holdings, s: Session)
    requires Executed(h, s).verdict.Done?
    ensures var ta, tb := TakeAll(CsOf(h, s.initiator), s.initiatorItems), TakeAll(CsOf(h, s.counterparty), s.counterpartyItems);
      Executed(h, s).lost == Spilled(ta.cs, ItemsOf(tb.given)) + Spilled(tb.cs, ItemsOf(ta.given))
  {
    var ta, tb := TakeAll(CsOf(h, s.initiator), s.initiatorItems), TakeAll(CsOf(h, s.counterparty), s.counterpartyItems);
    var lost := Spilled(ta.cs, ItemsOf(tb.given)) + Spilled(tb.cs, ItemsOf(ta.given));
    assert lost + [] == lost;
  }

  /** Nothing that holds something is going to arrive where a compatible stack has room. */
  ghost predicate NothingSpills(h: Holdings, s: Session) {
    var ta, tb := TakeAll(CsOf(h, s.initiator), s.initiatorItems), TakeAll(CsOf(h, s.counterparty), s.counterpartyItems);
    !SpillsSomewhere(ta.cs, ItemsOf(tb.given)) && !SpillsSomewhere(tb.cs, ItemsOf(ta.given))
  }

  /** Whether a success loses anything can be told from holdings and offers beforehand. */
  lemma LosesNothingIfNothingSpills(h: Holdings, s: Session)
    requires Executed(h, s).verdict.Done?
    ensures Executed(h, s).lost == [] <==> NothingSpills(h, s)
  {
    var ta, tb := TakeAll(CsOf(h, s.initiator), s.initiatorItems), TakeAll(CsOf(h, s.counterparty), s.counterpartyItems);
    SuccessLosesOnlyContents(h, s);
    SpilledExactlyIfSomewhere(ta.cs, ItemsOf(tb.given));
    SpilledExactlyIfSomewhere(tb.cs, ItemsOf(ta.given));
  }

  /** What each side gave, in the order it was staged. */
  function Staged(cs: Containers, refs: seq<Reference>): seq<Item>
    requires AllThere(cs, refs)
  {
    seq(|refs|, i requires 0 <= i < |refs| => ItemAt(cs, refs[i]))
  }

  /**
   * Staged from the back to the front, a trade can fail only for lack of room, and a success moves
   * exactly the staged items: each player holds what he held, less his own, plus the other's.
   */
  lemma EachReceivesTheStaged(k: Kind, h: Holdings, s: Session)
    requires s.initiator != s.counterparty && AllFitting(h)
    requires AllThere(CsOf(h, s.initiator), s.initiatorItems) && AllThere(CsOf(h, s.counterparty), s.counterpartyItems)
    requires Descending(s.initiatorItems) && Descending(s.counterpartyItems)
    ensures Executed(h, s).verdict.Done? || Executed(h, s).verdict.NoRoom?
    ensures var a, b := CsOf(h, s.initiator), CsOf(h, s.counterparty);
      var mine, theirs := Staged(a, s.initiatorItems), Staged(b, s.counterpartyItems);
      var after := Executed(h, s).holdings;
      Executed(h, s).verdict.Done? && NothingSpills(h, s) ==>
        && HeldUnits(k, CsOf(after, s.initiator), 256) + UnitsIn(k, mine) == HeldUnits(k, a, 256) + UnitsIn(k, theirs)
        && HeldUnits(k, CsOf(after, s.counterparty), 256) + UnitsIn(k, theirs) == HeldUnits(k, b, 256) + UnitsIn(k, mine)
  {
    var a, b := CsOf(h, s.initiator), CsOf(h, s.counterparty);
    var ta, tb := TakeAll(a, s.initiatorItems), TakeAll(b, s.counterpartyItems);
    DescendingIsFaithful(a, s.initiatorItems);
    DescendingIsFaithful(b, s.counterpartyItems);
    assert ItemsOf(ta.given) == Staged(a, s.initiatorItems);
    assert ItemsOf(tb.given) == Staged(b, s.counterpartyItems);
    if Executed(h, s).verdict.Done? && NothingSpills(h, s) {
      LosesNothingIfNothingSpills(h, s);
      SuccessLosesOnlyContents(h, s);
      SideReceives(k, a, s.initiatorItems, ItemsOf(tb.given));
      SideReceives(k, b, s.counterpartyItems, ItemsOf(ta.given));
      NobodyReceives(ItemsOf(ta.given));
      NobodyReceives(ItemsOf(tb.given));
      if s.initiator !in h {
        NothingFromNobody(h, s.initiator, s.initiatorItems);
      }
      if s.counterparty !in h {
        NothingFromNobody(h, s.counterparty, s.counterpartyItems);
      }
    }
  }

  lemma {:induction false} SideReceives(k: Kind, cs: Containers, refs: seq<Reference>, items: seq<Item>)
    requires DeliverAll(TakeAll(cs, refs).cs, items).left == [] && Spilled(TakeAll(cs, refs).cs, items) == []
    ensures HeldUnits(k, DeliverAll(TakeAll(cs, refs).cs, items).cs, 256) + UnitsIn(k, ItemsOf(TakeAll(cs, refs).given))
         == HeldUnits(k, cs, 256) + UnitsIn(k, items)
  {
    var t := TakeAll(cs, refs);
    TakingConserves(k, cs, refs);
    GivenAreItems(k, t.given);
    DeliveryIsAccountedFor(k, t.cs, items);
  }

  // ----- exactly when a success conserves everything -----

  lemma {:induction false} SpilledAreSound(cs: Containers, items: seq<Item>)
    requires SoundItems(items)
    ensures SoundItems(Spilled(cs, items))
    decreases |items|
  {
    if items != [] && DeliverOne(Ascending(cs.Keys), cs, items[0]).Ok? {
      assert SoundItem(items[0]);
      SpilledAreSound(DeliverOne(Ascending(cs.Keys), cs, items[0]).value, items[1..]);
    }
  }

  lemma {:induction false} TakenAreSound(cs: Containers, refs: seq<Reference>)
    requires SoundContainers(cs)
    ensures SoundContainers(TakeAll(cs, refs).cs) && SoundItems(ItemsOf(TakeAll(cs, refs).given))
  {
    if refs != [] {
      var before, ref := TakeAll(cs, refs[..|refs| - 1]), refs[|refs| - 1];
      TakenAreSound(cs, refs[..|refs| - 1]);
      if before.ok && Has(before.cs, ref) {
        var items := before.cs[ref.container].items;
        assert SoundContainer(before.cs[ref.container]) && items[ref.index] in items;
        forall x | x in Without(items, ref.index) ensures x in items {}
        var given := TakeAll(cs, refs).given;
        assert ItemsOf(given) == ItemsOf(before.given) + [items[ref.index]];
      }
    }
  }

  predicate AllSound(h: Holdings) {
    forall p | p in h :: SoundContainers(h[p])
  }

  /** A success conserves every kind exactly if no item that holds something was merged on arrival. */
  lemma SuccessConservesExactlyIfNothingSpills(h: Holdings, s: Session)
    requires s.initiator != s.counterparty && AllSound(h) && Executed(h, s).verdict.Done?
    ensures (forall k :: Both(k, Executed(h, s).holdings, s) == Both(k, h, s)) <==> NothingSpills(h, s)
  {
    LosesNothingIfNothingSpills(h, s);
    var lost := Executed(h, s).lost;
    forall k ensures Both(k, Executed(h, s).holdings, s) + UnitsIn(k, lost) == Both(k, h, s) {
      TradesAreAccountedFor(k, h, s);
    }
    if lost != [] {
      var ta, tb := TakeAll(CsOf(h, s.initiator), s.initiatorItems), TakeAll(CsOf(h, s.counterparty), s.counterpartyItems);
      SuccessLosesOnlyContents(h, s);
      TakenAreSound(CsOf(h, s.initiator), s.initiatorItems);
      TakenAreSound(CsOf(h, s.counterparty), s.counterpartyItems);
      SpilledAreSound(ta.cs, ItemsOf(tb.given));
      SpilledAreSound(tb.cs, ItemsOf(ta.given));
      ContentsCount(lost);
    }
  }

  const COINS := Item(2148, 5, None, None, [])
  const PURSE := Item(1987, 1, None, None, [COINS])
  const GIVER: Containers := map[0 := Container(8, false, [PURSE])]
  const TAKER: Containers := map[0 := Container(8, false, [PURSE.(contents := [])])]

  /** A purse with coins arrives where an empty one lies: they stack, and the coins are gone. */
  lemma ArrivingPurseSpills()
    ensures var h, s := map[1 := GIVER, 2 := TAKER], Session(1, 2, [Reference(0, 0)], [], true, true);
      && AllSound(h) && Executed(h, s).verdict.Done? && Executed(h, s).lost == [COINS] && !NothingSpills(h, s)
  {
    var h, s := map[1 := GIVER, 2 := TAKER], Session(1, 2, [Reference(0, 0)], [], true, true);
    var refs, ids := [Reference(0, 0)], Ascending(TAKER.Keys);
    SameList(ids, [0]);
    TakeOne(GIVER, refs[0]);
    assert SoundItem(COINS) && SoundItem(PURSE) && SoundContainer(GIVER[0]) && SoundContainer(TAKER[0]);
    var t := TakeAll(GIVER, refs);
    assert t.given == [Given(refs[0], PURSE)] && t.ok;
    var items := ItemsOf(t.given);
    assert items == [PURSE] && items[1..] == [];
    assert RoomFor(TAKER[0].items[0], PURSE) && FirstRoom(TAKER[0].items, PURSE, 0) == Some(0);
    assert MergesOnArrival(ids, TAKER, PURSE);
    var next := DeliverOne(ids, TAKER, PURSE).value;
    assert DeliverAll(TAKER, items) == DeliverAll(next, []);
    assert Spilled(TAKER, items) == PURSE.contents + Spilled(next, []);
    LosesNothingIfNothingSpills(h, s);
  }

  // ----- the three passes as loops -----

  method Resolve(cs: Containers, refs: seq<Reference>) returns (ok: bool)
    ensures ok <==> AllThere(cs, refs)
  {
    for i := 0 to |refs|
      invariant forall j | 0 <= j < i :: Has(cs, refs[j])
    {
      if !Has(cs, refs[i]) {
        return false;
      }
    }
    return true;
  }

  /** Removes the offered slots in order; a slot that is gone stops it, after everything was put back. */
  method RemoveOffered(cs: Containers, refs: seq<Reference>) returns (now: Containers, given: seq<Given>, ok: bool)
    ensures ok == TakeAll(cs, refs).ok
    ensures given == TakeAll(cs, refs).given
    ensures now == if ok then TakeAll(cs, refs).cs else PutBack(TakeAll(cs, refs).cs, given)
  {
    now, given := cs, [];
    for i := 0 to |refs|
      invariant TakeAll(cs, refs[..i]) == Taking(now, given, true)
    {
      assert refs[..i + 1][..i] == refs[..i];
      if !Has(now, refs[i]) {
        StuckTake(cs, refs, i);
        now := Restore(now, given);
        return now, given, false;
      }
      given := given + [Given(refs[i], ItemAt(now, refs[i]))];
      now := Less(now, refs[i]);
    }
    assert refs[..|refs|] == refs;
    return now, given, true;
  }

  lemma {:induction false} StuckTake(cs: Containers, refs: seq<Reference>, i: nat)
    requires i < |refs| && TakeAll(cs, refs[..i]).ok && !Has(TakeAll(cs, refs[..i]).cs, refs[i])
    ensures TakeAll(cs, refs) == TakeAll(cs, refs[..i]).(ok := false)
  {
    var front := refs[..|refs| - 1];
    if i == |front| {
      assert refs[..i] == front;
    } else {
      assert front[..i] == refs[..i] && front[i] == refs[i];
      StuckTake(cs, front, i);
    }
  }

  method Restore(cs: Containers, given: seq<Given>) returns (now: Containers)
    ensures now == PutBack(cs, given)
  {
    now := cs;
    var i := |given|;
    assert given[..i] == given;
    while i > 0
      invariant 0 <= i <= |given|
      invariant PutBack(now, given[..i]) == PutBack(cs, given)
    {
      i := i - 1;
      assert given[..i + 1][..i] == given[..i];
      now := Pushed(now, given[i]);
    }
  }

  method DeliverItem(cs: Containers, item: Item) returns (r: Result<Containers>)
    ensures r == DeliverOne(Ascending(cs.Keys), cs, item)
  {
    var ids: seq<ContainerId> := VisitOrder(cs.Keys);
    assert ids[0..] == ids;
    for i := 0 to |ids|
      invariant DeliverOne(ids[i..], cs, item) == DeliverOne(ids, cs, item)
    {
      assert ids[i..][0] == ids[i] && ids[i..][1..] == ids[i + 1..];
      var merged := MergeOrInsert(cs[ids[i]], item);
      if merged.Ok? {
        return Ok(cs[ids[i] := merged.value]);
      }
    }
    assert ids[|ids|..] == [];
    return Err;
  }

  /** Delivers item after item, and stops at the first that finds no room. */
  method Deliver(cs: Containers, items: seq<Item>) returns (now: Containers, ok: bool)
    ensures now == DeliverAll(cs, items).cs && (ok <==> DeliverAll(cs, items).left == [])
  {
    now := cs;
    assert items[0..] == items;
    for i := 0 to |items|
      invariant DeliverAll(now, items[i..]) == DeliverAll(cs, items)
    {
      assert items[i..][0] == items[i] && items[i..][1..] == items[i + 1..];
      var placed := DeliverItem(now, items[i]);
      if placed.Err? {
        return now, false;
      }
      now := placed.value;
    }
    assert items[|items|..] == [];
    return now, true;
  }
}
