/** Where money and traded items arrive, what the keywords answer, and whom a trade leaves alone. */
module Deliveries {
  import opened Prelude
  import opened Items
  import opened Bags
  import opened Placement
  import Bank
  import Trade
  import opened TradeExecution

  // ----- the first container that takes an item -----

  /** A container that the item fits into, and that is not nested unless nested ones are served too. */
  predicate Receives(c: Container, item: Item, nestedToo: bool) {
    (nestedToo || !c.hasParent) && CanTake(c.items, c.capacity, item)
  }

  predicate FirstToReceive(cs: Containers, item: Item, nestedToo: bool, id: ContainerId) {
    id in cs && Receives(cs[id], item, nestedToo)
    && forall other | other in cs && other < id :: !Receives(cs[other], item, nestedToo)
  }

  /** The item is in that container, merged or at the end, and nothing else has changed. */
  ghost predicate ArrivedIn(cs: Containers, next: Containers, id: ContainerId, item: Item) {
    && id in cs && next.Keys == cs.Keys && Took(cs[id].items, item, next[id].items)
    && next[id].capacity == cs[id].capacity && next[id].hasParent == cs[id].hasParent
    && forall other | other in cs && other != id :: next[other] == cs[other]
  }

  /** Served in ascending order of identifiers; refused only if no container receives the item. */
  ghost predicate Arrived(cs: Containers, r: Result<Containers>, item: Item, nestedToo: bool) {
    match r
    case Err => forall id | id in cs :: !Receives(cs[id], item, nestedToo)
    case Ok(next) => exists id :: FirstToReceive(cs, item, nestedToo, id) && ArrivedIn(cs, next, id, item)
  }

  /** The same for the rest of a list of identifiers, where the earlier ones do not receive the item. */
  lemma {:induction false} DeliveredAt(ids: seq<ContainerId>, cs: Containers, item: Item, i: nat)
    requires Lists(ids, cs.Keys) && i <= |ids| && (forall id | id in ids[i..] :: id in cs)
    requires forall j | 0 <= j < i && ids[j] in cs :: !Receives(cs[ids[j]], item, true)
    ensures Arrived(cs, DeliverOne(ids[i..], cs, item), item, true)
    decreases |ids| - i
  {
    if i == |ids| {
      forall id | id in cs ensures !Receives(cs[id], item, true) {
        assert id in ids;
      }
    } else {
      assert ids[i..][0] == ids[i] && ids[i..][1..] == ids[i + 1..] && ids[i] in ids[i..];
      StackingMeans(cs[ids[i]], item);
      if Stacked(cs[ids[i]], item).Ok? {
        FirstInTurn(ids, cs, item, true, i);
        assert ArrivedIn(cs, DeliverOne(ids[i..], cs, item).value, ids[i], item);
      } else {
        DeliveredAt(ids, cs, item, i + 1);
      }
    }
  }

  lemma FirstInTurn(ids: seq<ContainerId>, cs: Containers, item: Item, nestedToo: bool, i: nat)
    requires Lists(ids, cs.Keys) && i < |ids| && ids[i] in cs && Receives(cs[ids[i]], item, nestedToo)
    requires forall j | 0 <= j < i && ids[j] in cs :: !Receives(cs[ids[j]], item, nestedToo)
    ensures FirstToReceive(cs, item, nestedToo, ids[i])
  {
    forall other | other in cs && other < ids[i] ensures !Receives(cs[other], item, nestedToo) {
      assert other in ids;
      var j :| 0 <= j < |ids| && ids[j] == other;
      assert j < i;
    }
  }

  lemma {:induction false} MoneyPlacedAt(ids: seq<ContainerId>, cs: Containers, item: Item, i: nat)
    requires Lists(ids, cs.Keys) && i <= |ids| && (forall id | id in ids[i..] :: id in cs)
    requires forall j | 0 <= j < i && ids[j] in cs :: !Receives(cs[ids[j]], item, false)
    ensures Arrived(cs, Bank.Placed(ids[i..], cs, item), item, false)
    decreases |ids| - i
  {
    if i == |ids| {
      forall id | id in cs ensures !Receives(cs[id], item, false) {
        assert id in ids;
      }
    } else {
      assert ids[i..][0] == ids[i] && ids[i..][1..] == ids[i + 1..] && ids[i] in ids[i..];
      StackingMeans(cs[ids[i]], item);
      if !cs[ids[i]].hasParent && Stacked(cs[ids[i]], item).Ok? {
        FirstInTurn(ids, cs, item, false, i);
        assert ArrivedIn(cs, Bank.Placed(ids[i..], cs, item).value, ids[i], item);
      } else {
        MoneyPlacedAt(ids, cs, item, i + 1);
      }
    }
  }

  /** A traded item arrives in the first container that fits it, nested or not. */
  lemma ItemsArriveInTheFirst(cs: Containers, item: Item)
    ensures Arrived(cs, DeliverOne(Ascending(cs.Keys), cs, item), item, true)
  {
    var ids := Ascending(cs.Keys);
    assert ids[0..] == ids;
    DeliveredAt(ids, cs, item, 0);
  }

  /** A stack of gold arrives in the first container that is not nested and fits it. */
  lemma GoldArrivesInTheFirst(cs: Containers, item: Item)
    ensures Arrived(cs, Bank.Placed(Ascending(cs.Keys), cs, item), item, false)
  {
    var ids := Ascending(cs.Keys);
    assert ids[0..] == ids;
    MoneyPlacedAt(ids, cs, item, 0);
  }

  /** There is one way to arrive. */
  lemma ArrivedOnce(cs: Containers, x: Containers, y: Containers, item: Item, nestedToo: bool)
    requires Arrived(cs, Ok(x), item, nestedToo) && Arrived(cs, Ok(y), item, nestedToo)
    ensures x == y
  {
    var a :| FirstToReceive(cs, item, nestedToo, a) && ArrivedIn(cs, x, a, item);
    var b :| FirstToReceive(cs, item, nestedToo, b) && ArrivedIn(cs, y, b, item);
    assert a == b by {
      assert !(a < b) && !(b < a);
    }
    TookOnce(cs[a].items, item, x[a].items, y[a].items);
    forall id | id in cs ensures x[id] == y[id] {
      if id == a {
        assert x[a] == Container(cs[a].capacity, cs[a].hasParent, x[a].items);
      }
    }
  }

  lemma TookOnce(xs: seq<Item>, item: Item, ys: seq<Item>, zs: seq<Item>)
    requires Took(xs, item, ys) && Took(xs, item, zs)
    ensures ys == zs
  {
  }

  /** Item after item arrives, each where it fits first at that moment. */
  ghost predicate InTurn(cs: Containers, items: seq<Item>, after: Containers, nestedToo: bool)
    decreases |items|
  {
    if items == [] then after == cs
    else exists next :: Arrived(cs, Ok(next), items[0], nestedToo) && InTurn(next, items[1..], after, nestedToo)
  }

  /** A delivery is complete exactly if the items arrive in turn, and leaves them there. */
  lemma {:induction false} DeliveredInTurn(cs: Containers, items: seq<Item>, after: Containers)
    ensures DeliverAll(cs, items) == Delivery(after, []) <==> InTurn(cs, items, after, true)
    decreases |items|
  {
    if items != [] {
      ItemsArriveInTheFirst(cs, items[0]);
      var one := DeliverOne(Ascending(cs.Keys), cs, items[0]);
      forall next | Arrived(cs, Ok(next), items[0], true) ensures one == Ok(next) {
        OnlyIfReceived(cs, one, next, items[0], true);
      }
      if one.Ok? {
        DeliveredInTurn(one.value, items[1..], after);
      }
    }
  }

  /** A delivery that is not complete stops at the first item that fits nowhere; those before it have arrived. */
  lemma {:induction false} StopsWhereNothingFits(cs: Containers, items: seq<Item>) returns (n: nat)
    requires DeliverAll(cs, items).left != []
    ensures var d := DeliverAll(cs, items);
      && n < |items| && d.left == items[n..] && DeliverAll(cs, items[..n]) == Delivery(d.cs, [])
      && Arrived(d.cs, Err, items[n], true)
    decreases |items|
  {
    ItemsArriveInTheFirst(cs, items[0]);
    match DeliverOne(Ascending(cs.Keys), cs, items[0])
    case Err => n := 0;
    case Ok(next) =>
      n := StopsWhereNothingFits(next, items[1..]);
      assert items[..n + 1][1..] == items[1..][..n];
      n := n + 1;
  }

  lemma OnlyIfReceived(cs: Containers, r: Result<Containers>, next: Containers, item: Item, nestedToo: bool)
    requires Arrived(cs, r, item, nestedToo) && Arrived(cs, Ok(next), item, nestedToo)
    ensures r == Ok(next)
  {
    if r.Ok? {
      ArrivedOnce(cs, r.value, next, item, nestedToo);
    }
  }

  /** The same players, and nobody but the two traders is affected. */
  predicate OthersKeep(h: Holdings, s: Trade.Session, after: Holdings) {
    && after.Keys == h.Keys
    && forall p | p in h && p != s.initiator && p != s.counterparty :: after[p] == h[p]
  }

  lemma DeliveringKeepsOthers(h: Holdings, s: Trade.Session, ta: Trade.Taking, tb: Trade.Taking)
    ensures OthersKeep(h, s, Delivered(h, s, ta, tb).holdings)
  {
    var da := DeliverAll(ta.cs, ItemsOf(tb.given));
    PuttingKeepsOthers(h, s, da.cs, if da.left != [] then tb.cs else DeliverAll(tb.cs, ItemsOf(ta.given)).cs);
  }

  lemma PuttingKeepsOthers(h: Holdings, s: Trade.Session, x: Containers, y: Containers)
    ensures OthersKeep(h, s, Put(Put(h, s.initiator, x), s.counterparty, y))
    ensures OthersKeep(h, s, Put(Put(h, s.counterparty, y), s.initiator, x))
    ensures OthersKeep(h, s, Put(h, s.initiator, x))
  {
  }

  lemma OthersKeepTheirHoldings(h: Holdings, s: Trade.Session)
    ensures OthersKeep(h, s, Executed(h, s).holdings)
  {
    var ta := Trade.TakeAll(CsOf(h, s.initiator), s.initiatorItems);
    var tb := Trade.TakeAll(CsOf(h, s.counterparty), s.counterpartyItems);
    DeliveringKeepsOthers(h, s, ta, tb);
    PuttingKeepsOthers(h, s, Trade.PutBack(ta.cs, ta.given), Trade.PutBack(tb.cs, tb.given));
  }

  /** A trade with an item that is not there stops before anything changes, and no other trade does. */
  lemma MissingExactlyIfNotThere(h: Holdings, s: Trade.Session)
    ensures var out := Executed(h, s);
      && (out.verdict.Missing? <==>
            || (exists ref :: ref in s.initiatorItems && !IsThere(CsOf(h, s.initiator), ref))
            || exists ref :: ref in s.counterpartyItems && !IsThere(CsOf(h, s.counterparty), ref))
      && (out.verdict.Missing? ==> out.holdings == h)
  {
    AllThereMeans(CsOf(h, s.initiator), s.initiatorItems);
    AllThereMeans(CsOf(h, s.counterparty), s.counterpartyItems);
  }

  /** Both offers can be taken out. */
  predicate Taken(h: Holdings, s: Trade.Session, ta: Trade.Taking, tb: Trade.Taking) {
    && s.initiator != s.counterparty && s.initiator in h && s.counterparty in h
    && Trade.AllThere(h[s.initiator], s.initiatorItems) && Trade.AllThere(h[s.counterparty], s.counterpartyItems)
    && ta == Trade.TakeAll(h[s.initiator], s.initiatorItems) && ta.ok
    && tb == Trade.TakeAll(h[s.counterparty], s.counterpartyItems) && tb.ok
  }

  lemma ExecutionDelivers(h: Holdings, s: Trade.Session, ta: Trade.Taking, tb: Trade.Taking)
    requires Taken(h, s, ta, tb)
    ensures var da, db := DeliverAll(ta.cs, ItemsOf(tb.given)), DeliverAll(tb.cs, ItemsOf(ta.given));
      && (Executed(h, s).verdict.Done? <==> da.left == [] && db.left == [])
      && (da.left == [] ==> Executed(h, s).holdings == h[s.initiator := da.cs][s.counterparty := db.cs])
  {
  }

  /** Once both offers are taken, a trade is done exactly if both arrive with the other side, and leaves them there. */
  lemma TradersExchange(h: Holdings, s: Trade.Session, ta: Trade.Taking, tb: Trade.Taking, x: Containers, y: Containers)
    requires Taken(h, s, ta, tb)
    ensures var out := Executed(h, s);
      out.verdict.Done? && out.holdings == h[s.initiator := x][s.counterparty := y]
      <==> InTurn(ta.cs, ItemsOf(tb.given), x, true) && InTurn(tb.cs, ItemsOf(ta.given), y, true)
  {
    ExecutionDelivers(h, s, ta, tb);
    DeliveredInTurn(ta.cs, ItemsOf(tb.given), x);
    DeliveredInTurn(tb.cs, ItemsOf(ta.given), y);
    var out := Executed(h, s);
    if out.verdict.Done? && out.holdings == h[s.initiator := x][s.counterparty := y] {
      assert out.holdings[s.initiator] == x && out.holdings[s.counterparty] == y;
    }
  }

  predicate IsThere(cs: Containers, ref: Trade.Reference) {
    ref.container in cs && ref.index < |cs[ref.container].items|
  }

  lemma AllThereMeans(cs: Containers, refs: seq<Trade.Reference>)
    ensures Trade.AllThere(cs, refs) <==> forall ref | ref in refs :: IsThere(cs, ref)
  {
    if Trade.AllThere(cs, refs) {
      forall ref | ref in refs ensures IsThere(cs, ref) {
        var i :| 0 <= i < |refs| && refs[i] == ref;
        assert Trade.Has(cs, refs[i]);
      }
    }
    if forall ref | ref in refs :: IsThere(cs, ref) {
      forall i | 0 <= i < |refs| ensures Trade.Has(cs, refs[i]) {
        assert refs[i] in refs;
      }
    }
  }

  /** What goes back into a container, last taken first. */
  function ReturnedTo(given: seq<Trade.Given>, id: ContainerId): seq<Item> {
    if given == [] then []
    else
      var g := given[|given| - 1];
      (if g.ref.container == id then [g.item] else []) + ReturnedTo(given[..|given| - 1], id)
  }

  /** In each container, what was taken lies behind what is left. */
  predicate PutBehind(cs: Containers, given: seq<Trade.Given>, after: Containers) {
    after.Keys == cs.Keys && forall id | id in cs :: LiesBehind(cs[id], ReturnedTo(given, id), after[id])
  }

  predicate LiesBehind(c: Container, xs: seq<Item>, after: Container) {
    after == c.(items := after.items) && after.items == c.items + xs
  }

  predicate HasRoomFor(cs: Containers, given: seq<Trade.Given>) {
    && (forall id | id in cs :: |cs[id].items| + |ReturnedTo(given, id)| <= cs[id].capacity)
    && forall g | g in given :: g.ref.container in cs
  }

  /** Restoring puts what was taken behind what is left, as long as there is room. */
  lemma {:induction false} RestoredBehindTheRest(cs: Containers, given: seq<Trade.Given>)
    requires HasRoomFor(cs, given)
    ensures PutBehind(cs, given, Trade.PutBack(cs, given))
    decreases |given|
  {
    if given == [] {
      forall id | id in cs ensures LiesBehind(cs[id], [], cs[id]) {
        assert cs[id].items + [] == cs[id].items;
      }
    } else {
      var front := given[..|given| - 1];
      OnePutBack(cs, given);
      RestoredBehindTheRest(Trade.Pushed(cs, given[|given| - 1]), front);
      PutBehindStep(cs, given, Trade.PutBack(cs, given));
    }
  }

  lemma OnePutBack(cs: Containers, given: seq<Trade.Given>)
    requires given != [] && HasRoomFor(cs, given)
    ensures var g, next := given[|given| - 1], Trade.Pushed(cs, given[|given| - 1]);
      && HasRoomFor(next, given[..|given| - 1]) && next.Keys == cs.Keys
      && forall id | id in cs :: LiesBehind(cs[id], if g.ref.container == id then [g.item] else [], next[id])
  {
    var g, front := given[|given| - 1], given[..|given| - 1];
    assert g in given;
    forall id | id in cs
      ensures |ReturnedTo(given, id)| == (if g.ref.container == id then 1 else 0) + |ReturnedTo(front, id)|
    {
    }
  }

  lemma PutBehindStep(cs: Containers, given: seq<Trade.Given>, after: Containers)
    requires given != [] && HasRoomFor(cs, given)
    requires PutBehind(Trade.Pushed(cs, given[|given| - 1]), given[..|given| - 1], after)
    ensures PutBehind(cs, given, after)
  {
    var g, front, next := given[|given| - 1], given[..|given| - 1], Trade.Pushed(cs, given[|given| - 1]);
    OnePutBack(cs, given);
    forall id | id in cs ensures LiesBehind(cs[id], ReturnedTo(given, id), after[id]) {
      assert LiesBehind(next[id], ReturnedTo(front, id), after[id]);
      Assoc(cs[id].items, if g.ref.container == id then [g.item] else [], ReturnedTo(front, id));
    }
  }

  // ----- money -----

  /** Gold, platinum and crystal coins, and nothing else, are worth something. */
  lemma CoinsAreWorth(item: Item)
    ensures Bank.Worth(item) == (if item.serverId == 2148 then item.count
                                 else if item.serverId == 2152 then 100 * item.count
                                 else if item.serverId == 2160 then 10_000 * item.count
                                 else 0)
    ensures Bank.IsCoin(item) <==> item.serverId in {2148, 2152, 2160}
  {
  }

  /** A hundred coins in every stack but perhaps the last, and the amount in all of them together. */
  lemma {:induction false} StacksAreFull(amount: nat)
    ensures var stacks := Bank.Chunks(amount);
      && Bank.Sum(stacks) == amount
      && (forall i | 0 <= i < |stacks| :: 1 <= stacks[i] <= 100 && (i + 1 < |stacks| ==> stacks[i] == 100))
    decreases amount
  {
    Bank.ChunksAddUp(amount);
    if amount > 100 {
      StacksAreFull(amount - 100);
      assert Bank.Chunks(amount) == [100] + Bank.Chunks(amount - 100);
    }
  }

  /** Stripping drops exactly the coins and keeps everything else in order: it works item by item. */
  lemma {:induction false} StrippingWorksItemByItem(a: seq<Item>, item: Item, b: seq<Item>)
    ensures Bank.Stripped(a + b) == Bank.Stripped(a) + Bank.Stripped(b)
    ensures Bank.Stripped([item]) == if item.serverId in {2148, 2152, 2160} then [] else [item]
    decreases |a|
  {
    assert [item][1..] == [];
    if a == [] {
      assert a + b == b;
    } else {
      assert (a + b)[1..] == a[1..] + b;
      StrippingWorksItemByItem(a[1..], item, b);
      Assoc(if Bank.IsCoin(a[0]) then [] else [a[0]], Bank.Stripped(a[1..]), Bank.Stripped(b));
    }
  }

  /** What a keyword answers, case by case; an amount above the balance is refused for that first. */
  lemma RepliesMean(a: Bank.Account, k: Bank.Keyword, officer: bool)
    requires SoundBag(a.bag)
    ensures var reply, after := Bank.ReplyTo(a, k, officer), Bank.After(a, k, officer);
      && (reply == Bank.NotHandled <==> !officer || k.Other? || (k.Withdraw? && k.amount == 0))
      && (officer && k.Balance? ==> reply == Bank.BalanceIs(a.balance))
      && (officer && k.DepositAll? ==>
            reply == if Bank.Money(a.bag) == 0 then Bank.NoCoins else Bank.Deposited(Bank.Money(a.bag)))
      && (officer && k.Withdraw? && k.amount > 0 ==>
            && (reply == Bank.NotEnough <==> a.balance < k.amount)
            && (reply == Bank.TooMuch <==> k.amount <= a.balance && 25_600 < k.amount)
            && (reply == Bank.NotEnough || reply == Bank.TooMuch || reply == Bank.NoSpace
                || reply == Bank.Withdrew(k.amount)))
      && (!reply.Deposited? && !reply.Withdrew? ==> after == a)
      && (reply.Withdrew? ==> after.balance == a.balance - k.amount && after.bag.equipment == a.bag.equipment)
      && (reply.Deposited? ==>
            && after.balance == (if a.balance + reply.gold > 0xFFFF_FFFF_FFFF_FFFF then 0xFFFF_FFFF_FFFF_FFFF
                                 else a.balance + reply.gold)
            && LeftAfterDeposit(a.bag, after.bag))
  {
    if k.Withdraw? {
      Bank.TooManyChunks(k.amount);
    }
  }

  /** Slots with anything but coins are as they were, and so are containers, with their coins taken out. */
  ghost predicate LeftAfterDeposit(b: Bag, after: Bag) {
    && (forall s: Slot :: At(after, s) == (if s in b.equipment && b.equipment[s].serverId in {2148, 2152, 2160} then None
                                           else At(b, s)))
    && after.containers.Keys == b.containers.Keys
    && forall id | id in b.containers ::
         after.containers[id] == b.containers[id].(items := Bank.Stripped(b.containers[id].items))
  }

  /** A withdrawal goes through exactly if its stacks find room in turn, and leaves them there. */
  lemma {:induction false} GoldPlacedInTurn(cs: Containers, stacks: seq<nat>, after: Containers)
    requires forall i | 0 <= i < |stacks| :: 1 <= stacks[i] <= 100
    ensures Bank.PlacedAll(cs, stacks) == Ok(after) <==> InTurn(cs, Gold(stacks), after, false)
    decreases |stacks|
  {
    if stacks != [] {
      var coins := Bank.GoldStack(stacks[0]);
      GoldArrivesInTheFirst(cs, coins);
      assert Gold(stacks)[0] == coins && Gold(stacks)[1..] == Gold(stacks[1..]);
      var placed := Bank.Placed(Ascending(cs.Keys), cs, coins);
      forall next | Arrived(cs, Ok(next), coins, false) ensures placed == Ok(next) {
        OnlyIfReceived(cs, placed, next, coins, false);
      }
      if placed.Ok? {
        GoldPlacedInTurn(placed.value, stacks[1..], after);
      }
    }
  }

  function Gold(stacks: seq<nat>): seq<Item>
    requires forall i | 0 <= i < |stacks| :: 1 <= stacks[i] <= 100
  {
    seq(|stacks|, i requires 0 <= i < |stacks| => Item(2148, stacks[i], None, None, []))
  }
}
