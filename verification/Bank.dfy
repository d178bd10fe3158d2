/** Banking keywords: coins become credit and credit becomes coins, and no gold appears or vanishes. */
module Bank {
  import opened Prelude
  import opened Items
  import opened Bags

  /** The gold a coin of this item is worth. */
  function CoinValue(serverId: u16): Option<nat> {
    if serverId == 2148 then Some(1)
    else if serverId == 2152 then Some(100)
    else if serverId == 2160 then Some(10_000)
    else None
  }

  predicate IsCoin(item: Item) {
    CoinValue(item.serverId).Some?
  }

  function Worth(item: Item): nat {
    match CoinValue(item.serverId)
    case None => 0
    case Some(value) => value * item.count
  }

  const GOLD := Kind(2148, None, None)
  const MAX_CHUNKS: nat := 256

  // ----- carried money -----

  function MoneyIn(items: seq<Item>): nat {
    if items == [] then 0 else Worth(items[0]) + MoneyIn(items[1..])
  }

  function WornMoney(e: Equipment, n: nat): nat {
    if n == 0 then 0 else WornMoney(e, n - 1) + if n - 1 in e then Worth(e[n - 1]) else 0
  }

  function HeldMoney(cs: Containers, n: nat): nat {
    if n == 0 then 0 else HeldMoney(cs, n - 1) + if n - 1 in cs then MoneyIn(cs[n - 1].items) else 0
  }

  /** The coins a player carries in slots and at the top of containers. */
  function Money(b: Bag): nat {
    WornMoney(b.equipment, 11) + HeldMoney(b.containers, 256)
  }

  lemma {:induction false} MoneyConcat(a: seq<Item>, b: seq<Item>)
    ensures MoneyIn(a + b) == MoneyIn(a) + MoneyIn(b)
  {
    if a == [] {
      assert a + b == b;
    } else {
      assert (a + b)[1..] == a[1..] + b;
      MoneyConcat(a[1..], b);
    }
  }

  lemma {:induction false} HeldMoneyChanged(cs: Containers, id: ContainerId, c: Container, n: nat)
    requires id in cs
    ensures HeldMoney(cs[id := c], n) + (if id < n then MoneyIn(cs[id].items) else 0)
         == HeldMoney(cs, n) + if id < n then MoneyIn(c.items) else 0
  {
    if n > 0 {
      HeldMoneyChanged(cs, id, c, n - 1);
    }
  }

  lemma {:induction false} MoneyReplaced(items: seq<Item>, i: nat, item: Item)
    requires i < |items|
    ensures MoneyIn(items[i := item]) + Worth(items[i]) == MoneyIn(items) + Worth(item)
  {
    var after := items[i := item];
    if i == 0 {
      assert after[1..] == items[1..];
    } else {
      assert after[1..] == items[1..][i - 1 := item];
      MoneyReplaced(items[1..], i - 1, item);
    }
  }

  lemma MergedWorth(existing: Item, item: Item)
    requires RoomFor(existing, item)
    ensures Worth(MergedWith(existing, item)) == Worth(existing) + Worth(item)
  {
  }

  /** Stacking a coin adds exactly its worth, whether it merges or takes a slot. */
  lemma StackingAddsWorth(c: Container, item: Item)
    requires Stacked(c, item).Ok?
    ensures MoneyIn(Stacked(c, item).value.items) == MoneyIn(c.items) + Worth(item)
  {
    if Merges(c, item) {
      var i := FirstRoom(c.items, item, 0).value;
      MoneyReplaced(c.items, i, MergedWith(c.items[i], item));
      MergedWorth(c.items[i], item);
    } else {
      MoneyConcat(c.items, [item]);
      assert [item][1..] == [];
    }
  }

  lemma {:induction false} MoneyInIsBounded(items: seq<Item>)
    requires SoundItems(items)
    ensures MoneyIn(items) <= 1_000_000 * |items|
  {
    if items != [] {
      assert items[0] in items;
      MoneyInIsBounded(items[1..]);
    }
  }

  lemma {:induction false} WornMoneyIsBounded(e: Equipment, n: nat)
    requires forall s | s in e :: SoundItem(e[s])
    ensures WornMoney(e, n) <= 1_000_000 * n
  {
    if n > 0 {
      WornMoneyIsBounded(e, n - 1);
    }
  }

  lemma {:induction false} HeldMoneyIsBounded(cs: Containers, n: nat)
    requires forall id | id in cs :: SoundContainer(cs[id])
    ensures HeldMoney(cs, n) <= 100_000_000 * n
  {
    if n > 0 {
      HeldMoneyIsBounded(cs, n - 1);
      if n - 1 in cs {
        MoneyInIsBounded(cs[n - 1].items);
      }
    }
  }

  /** What a player can carry never overflows the sum of a deposit. */
  lemma MoneyFits(b: Bag)
    requires SoundBag(b)
    ensures Money(b) <= U64_MAX
  {
    WornMoneyIsBounded(b.equipment, 11);
    HeldMoneyIsBounded(b.containers, 256);
  }

  // ----- deposits -----

  function Stripped(items: seq<Item>): seq<Item> {
    if items == [] then [] else (if IsCoin(items[0]) then [] else [items[0]]) + Stripped(items[1..])
  }

  function StrippedBag(b: Bag): Bag {
    Bag(map s | s in b.equipment && !IsCoin(b.equipment[s]) :: b.equipment[s],
        map id | id in b.containers :: b.containers[id].(items := Stripped(b.containers[id].items)))
  }

  lemma {:induction false} StrippedHoldsNoCoin(items: seq<Item>)
    ensures forall x | x in Stripped(items) :: x in items && !IsCoin(x)
    ensures forall x | x in items && !IsCoin(x) :: x in Stripped(items)
    ensures MoneyIn(Stripped(items)) == 0 && |Stripped(items)| <= |items|
  {
    if items != [] {
      StrippedHoldsNoCoin(items[1..]);
      MoneyConcat(if IsCoin(items[0]) then [] else [items[0]], Stripped(items[1..]));
      assert items == [items[0]] + items[1..];
      assert [items[0]][1..] == [];
    }
  }

  predicate Coinless(b: Bag) {
    && (forall s | s in b.equipment :: !IsCoin(b.equipment[s]))
    && forall id, x | id in b.containers && x in b.containers[id].items :: !IsCoin(x)
  }

  lemma {:induction false} NoWornMoney(e: Equipment, n: nat)
    requires forall s | s in e :: !IsCoin(e[s])
    ensures WornMoney(e, n) == 0
  {
    if n > 0 {
      NoWornMoney(e, n - 1);
    }
  }

  lemma {:induction false} NoHeldMoney(cs: Containers, n: nat)
    requires forall id | id in cs :: MoneyIn(cs[id].items) == 0
    ensures HeldMoney(cs, n) == 0
  {
    if n > 0 {
      NoHeldMoney(cs, n - 1);
    }
  }

  /** A deposit takes every carried coin, nothing else, and stays within the bounds. */
  lemma StrippingTakesAllCoins(b: Bag)
    requires SoundBag(b)
    ensures Coinless(StrippedBag(b)) && Money(StrippedBag(b)) == 0 && SoundBag(StrippedBag(b))
  {
    var after := StrippedBag(b);
    forall id | id in b.containers
      ensures MoneyIn(after.containers[id].items) == 0 && SoundContainer(after.containers[id])
      ensures forall x | x in after.containers[id].items :: !IsCoin(x)
    {
      StrippedHoldsNoCoin(b.containers[id].items);
      assert SoundContainer(b.containers[id]);
    }
    NoWornMoney(after.equipment, 11);
    NoHeldMoney(after.containers, 256);
    assert after.containers.Keys == b.containers.Keys;
    assert |after.containers.Keys| == |b.containers.Keys|;
  }

  // ----- withdrawals -----

  /** Stacks of at most a hundred coins. */
  function Chunks(amount: nat): seq<nat> {
    if amount == 0 then [] else [Min(amount, 100)] + Chunks(amount - Min(amount, 100))
  }

  function GoldStack(n: nat): Item
    requires n <= 100
  {
    Item(2148, n, None, None, [])
  }

  lemma {:induction false} ChunksAreBounded(amount: nat)
    ensures |Chunks(amount)| == (amount + 99) / 100
    ensures forall i | 0 <= i < |Chunks(amount)| :: 1 <= Chunks(amount)[i] <= 100
    decreases amount
  {
    if amount > 0 {
      ChunksAreBounded(amount - Min(amount, 100));
    }
  }

  /** More than 256 stacks exactly for more than 25600 gold. */
  lemma TooManyChunks(amount: nat)
    ensures |Chunks(amount)| > MAX_CHUNKS <==> amount > 25_600
  {
    ChunksAreBounded(amount);
  }

  /** The first container, in order, that is not nested and takes the stack. */
  function Placed(ids: seq<ContainerId>, cs: Containers, item: Item): Result<Containers>
    requires forall id | id in ids :: id in cs
  {
    if ids == [] then Err
    else if !cs[ids[0]].hasParent && Stacked(cs[ids[0]], item).Ok? then Ok(cs[ids[0] := Stacked(cs[ids[0]], item).value])
    else Placed(ids[1..], cs, item)
  }

  ghost function PlacedAll(cs: Containers, chunks: seq<nat>): Result<Containers>
    requires forall i | 0 <= i < |chunks| :: 1 <= chunks[i] <= 100
    decreases |chunks|
  {
    if chunks == [] then Ok(cs)
    else
      match Placed(Ascending(cs.Keys), cs, GoldStack(chunks[0]))
      case Err => Err
      case Ok(next) => PlacedAll(next, chunks[1..])
  }

  function Sum(chunks: seq<nat>): nat {
    if chunks == [] then 0 else chunks[0] + Sum(chunks[1..])
  }

  lemma {:induction false} ChunksAddUp(amount: nat)
    ensures Sum(Chunks(amount)) == amount
  {
    if amount > 0 {
      ChunksAddUp(amount - Min(amount, 100));
    }
  }

  /** What placing one stack does: one container takes exactly that stack. */
  lemma {:induction false} PlacingAddsOneStack(k: Kind, ids: seq<ContainerId>, b: Bag, n: nat)
    requires (forall id | id in ids :: id in b.containers) && 1 <= n <= 100
    requires SoundBag(b) && Placed(ids, b.containers, GoldStack(n)).Ok?
    ensures var after := b.(containers := Placed(ids, b.containers, GoldStack(n)).value);
      && SoundBag(after) && after.containers.Keys == b.containers.Keys
      && Money(after) == Money(b) + n
      && BagUnits(k, after) == BagUnits(k, b) + if k == GOLD then n else 0
  {
    var id, cs, item := ids[0], b.containers, GoldStack(n);
    if !cs[id].hasParent && Stacked(cs[id], item).Ok? {
      var c := Stacked(cs[id], item).value;
      StackingAddsWorth(cs[id], item);
      StackingIsSound(cs[id], item);
      StackingAdds(k, cs[id], item);
      HeldMoneyChanged(cs, id, c, 256);
      HoldingUnits(k, b, id, c.items);
      HoldingIsSound(b, id, c.items);
      assert cs[id := c].Keys == cs.Keys;
    } else {
      PlacingAddsOneStack(k, ids[1..], b, n);
    }
  }

  /** A withdrawal adds exactly its amount, in gold coins, in stacks within the bounds. */
  lemma {:induction false} PlacingAddsTheAmount(k: Kind, b: Bag, chunks: seq<nat>)
    requires forall i | 0 <= i < |chunks| :: 1 <= chunks[i] <= 100
    requires SoundBag(b) && PlacedAll(b.containers, chunks).Ok?
    ensures var after := b.(containers := PlacedAll(b.containers, chunks).value);
      && SoundBag(after) && Money(after) == Money(b) + Sum(chunks)
      && BagUnits(k, after) == BagUnits(k, b) + if k == GOLD then Sum(chunks) else 0
    decreases |chunks|
  {
    if chunks != [] {
      var ids := Ascending(b.containers.Keys);
      var next := b.(containers := Placed(ids, b.containers, GoldStack(chunks[0])).value);
      PlacingAddsOneStack(k, ids, b, chunks[0]);
      PlacingAddsTheAmount(k, next, chunks[1..]);
    }
  }

  // ----- the keywords -----

  datatype Account = Account(bag: Bag, balance: u64)

  datatype Keyword = Balance | DepositAll | Withdraw(amount: u64) | Other

  datatype Reply =
    | NotHandled
    | BalanceIs(balance: u64)
    | NoCoins
    | Deposited(gold: nat)
    | NotEnough
    | TooMuch
    | NoSpace
    | Withdrew(amount: u64)

  function Wealth(a: Account): nat {
    a.balance + Money(a.bag)
  }

  /** Whether the withdrawal goes through, and if not, why. */
  ghost function WithdrawalReply(a: Account, amount: u64): Reply {
    if a.balance < amount then NotEnough
    else if |Chunks(amount)| > MAX_CHUNKS then TooMuch
    else
      ChunksAreBounded(amount);
      if PlacedAll(a.bag.containers, Chunks(amount)).Err? then NoSpace else Withdrew(amount)
  }

  ghost function ReplyTo(a: Account, k: Keyword, officer: bool): Reply {
    if !officer || k.Other? || k == Withdraw(0) then NotHandled
    else
      match k
      case Balance => BalanceIs(a.balance)
      case DepositAll => if Money(a.bag) == 0 then NoCoins else Deposited(Money(a.bag))
      case Withdraw(amount) => WithdrawalReply(a, amount)
      case Other => NotHandled
  }

  ghost function After(a: Account, k: Keyword, officer: bool): Account {
    match ReplyTo(a, k, officer)
    case Deposited(gold) => Account(StrippedBag(a.bag), Min(a.balance + gold, U64_MAX))
    case Withdrew(amount) =>
      ChunksAreBounded(amount);
      Account(a.bag.(containers := PlacedAll(a.bag.containers, Chunks(amount)).value), a.balance - amount)
    case _ => a
  }

  /** Gold is conserved by every keyword, unless a deposit hits the largest balance. */
  lemma KeywordConservesWealth(a: Account, k: Keyword, officer: bool)
    requires SoundBag(a.bag)
    ensures SoundBag(After(a, k, officer).bag)
    ensures Wealth(After(a, k, officer)) == Wealth(a)
            <==> !(officer && k.DepositAll? && Money(a.bag) > 0 && Wealth(a) > U64_MAX)
    ensures officer && k.DepositAll? ==> Money(After(a, k, officer).bag) == 0
    ensures ReplyTo(a, k, officer).Deposited? ==> Coinless(After(a, k, officer).bag)
  {
    match ReplyTo(a, k, officer)
    case Deposited(gold) => StrippingTakesAllCoins(a.bag);
    case Withdrew(amount) =>
      ChunksAreBounded(amount);
      ChunksAddUp(amount);
      PlacingAddsTheAmount(GOLD, a.bag, Chunks(amount));
    case _ =>
  }

  /** One more coin on a full balance: the deposit takes it and adds nothing. */
  lemma FullBalanceSwallowsTheDeposit()
    ensures var a := Account(Bag(map[3 := Item(2148, 1, None, None, [])], map[]), U64_MAX);
      && SoundBag(a.bag) && Wealth(a) == U64_MAX + 1 && Wealth(After(a, DepositAll, true)) == U64_MAX
  {
    var a := Account(Bag(map[3 := Item(2148, 1, None, None, [])], map[]), U64_MAX);
    WornMoneyOfOne(a.bag.equipment, 11);
    NothingHeld(256);
    StrippingTakesAllCoins(a.bag);
  }

  lemma {:induction false} WornMoneyOfOne(e: Equipment, n: nat)
    requires e == map[3 := Item(2148, 1, None, None, [])]
    ensures WornMoney(e, n) == if n > 3 then 1 else 0
  {
    if n > 0 {
      WornMoneyOfOne(e, n - 1);
    }
  }

  lemma {:induction false} NothingHeld(n: nat)
    ensures HeldMoney(map[], n) == 0
  {
    if n > 0 {
      NothingHeld(n - 1);
    }
  }

  /** A withdrawal changes no other kind of item, and hands out exactly the amount in gold. */
  lemma WithdrawalHandsOutGold(k: Kind, a: Account, amount: u64, officer: bool)
    requires SoundBag(a.bag) && ReplyTo(a, Withdraw(amount), officer) == Withdrew(amount)
    ensures BagUnits(k, After(a, Withdraw(amount), officer).bag) == BagUnits(k, a.bag) + if k == GOLD then amount else 0
    ensures amount <= 25_600
  {
    ChunksAreBounded(amount);
    ChunksAddUp(amount);
    TooManyChunks(amount);
    PlacingAddsTheAmount(k, a.bag, Chunks(amount));
  }

  ghost function Run(a: Account, ks: seq<Keyword>, officer: bool): Account {
    if ks == [] then a else After(Run(a, ks[..|ks| - 1], officer), ks[|ks| - 1], officer)
  }

  /** Over any run, a player whose wealth fits a balance keeps exactly that wealth. */
  lemma {:induction false} RunsConserveWealth(a: Account, ks: seq<Keyword>, officer: bool)
    requires SoundBag(a.bag) && Wealth(a) <= U64_MAX
    ensures Wealth(Run(a, ks, officer)) == Wealth(a) && SoundBag(Run(a, ks, officer).bag)
  {
    if ks != [] {
      RunsConserveWealth(a, ks[..|ks| - 1], officer);
      KeywordConservesWealth(Run(a, ks[..|ks| - 1], officer), ks[|ks| - 1], officer);
    }
  }

  // ----- the handler -----

  lemma {:induction false} HeldMoneyGap(cs: Containers, low: nat, high: nat)
    requires low <= high && forall id | low <= id < high :: id !in cs
    ensures HeldMoney(cs, high) == HeldMoney(cs, low)
    decreases high
  {
    if low < high {
      HeldMoneyGap(cs, low, high - 1);
    }
  }

  /** The sum over the first containers of an ascending list that covers them all. */
  function Until(ids: seq<ContainerId>, i: nat): nat
    requires i <= |ids|
  {
    if i < |ids| then ids[i] else 256
  }

  lemma HeldMoneyStep(cs: Containers, ids: seq<ContainerId>, i: nat)
    requires Lists(ids, cs.Keys) && i < |ids|
    ensures HeldMoney(cs, Until(ids, i + 1)) == HeldMoney(cs, Until(ids, i)) + MoneyIn(cs[ids[i]].items)
  {
    assert ids[i] in ids;
    forall id: int | ids[i] < id < Until(ids, i + 1) ensures id !in cs {
      assert id in cs ==> id in ids;
    }
    var last: nat := ids[i];
    HeldMoneyGap(cs, last + 1, Until(ids, i + 1));
  }

  lemma HeldMoneyStart(cs: Containers, ids: seq<ContainerId>)
    requires Lists(ids, cs.Keys)
    ensures HeldMoney(cs, Until(ids, 0)) == 0
  {
    forall id: int | 0 <= id < Until(ids, 0) ensures id !in cs {
      assert id in cs ==> id in ids;
    }
    HeldMoneyGap(cs, 0, Until(ids, 0));
  }

  /** Takes the coins out of one container, from the last slot to the first. */
  method StripItems(items: seq<Item>) returns (kept: seq<Item>, gold: nat)
    ensures kept == Stripped(items) && gold == MoneyIn(items)
  {
    kept, gold := items, 0;
    var index := |items|;
    assert kept == items + Stripped([]);
    while index > 0
      invariant 0 <= index <= |items|
      invariant kept == items[..index] + Stripped(items[index..]) && gold == MoneyIn(items[index..])
    {
      index := index - 1;
      var item := items[index];
      assert items[index..][0] == item && items[index..][1..] == items[index + 1..];
      assert kept[index] == item;
      assert Without(kept, index) == items[..index] + Stripped(items[index + 1..]);
      if IsCoin(item) {
        gold := gold + Worth(item);
        kept := Without(kept, index);
      }
      assert items[..index + 1] + Stripped(items[index + 1..]) == items[..index] + ([item] + Stripped(items[index + 1..]));
    }
    assert items[0..] == items && items[..0] == [];
  }

  method StripSlots(e: Equipment) returns (kept: Equipment, gold: nat)
    ensures kept == map s | s in e && !IsCoin(e[s]) :: e[s]
    ensures gold == WornMoney(e, 11)
  {
    kept, gold := e, 0;
    for slot := 1 to 11
      invariant kept == map s | s in e && (s >= slot || !IsCoin(e[s])) :: e[s]
      invariant gold == WornMoney(e, slot)
    {
      if slot in e && IsCoin(e[slot]) {
        gold := gold + Worth(e[slot]);
        kept := kept - {slot};
      }
    }
  }

  method StripContainers(cs: Containers) returns (next: Containers, gold: nat)
    ensures next == map id | id in cs :: cs[id].(items := Stripped(cs[id].items))
    ensures gold == HeldMoney(cs, 256)
  {
    var ids: seq<ContainerId> := VisitOrder(cs.Keys);
    next, gold := map[], 0;
    HeldMoneyStart(cs, ids);
    for i := 0 to |ids|
      invariant gold == HeldMoney(cs, Until(ids, i))
      invariant forall j | 0 <= j < i :: ids[j] in next
      invariant forall id | id in next :: id in cs && next[id] == cs[id].(items := Stripped(cs[id].items))
    {
      HeldMoneyStep(cs, ids, i);
      var items, more := StripItems(cs[ids[i]].items);
      next := next[ids[i] := cs[ids[i]].(items := items)];
      gold := gold + more;
    }
  }

  /** Places one stack of gold, trying the containers in order. */
  method PlaceStack(cs: Containers, chunk: nat) returns (r: Result<Containers>)
    requires 1 <= chunk <= 100
    ensures r == Placed(Ascending(cs.Keys), cs, GoldStack(chunk))
  {
    var ids: seq<ContainerId> := VisitOrder(cs.Keys);
    var item := GoldStack(chunk);
    assert ids[0..] == ids;
    for i := 0 to |ids|
      invariant Placed(ids[i..], cs, item) == Placed(ids, cs, item)
    {
      assert ids[i..][0] == ids[i] && ids[i..][1..] == ids[i + 1..];
      if !cs[ids[i]].hasParent {
        var merged := MergeOrInsert(cs[ids[i]], item);
        if merged.Ok? {
          return Ok(cs[ids[i] := merged.value]);
        }
      }
    }
    assert ids[|ids|..] == [];
    return Err;
  }

  /** Cuts an amount into stacks; gives up at the first one too many. */
  method Cut(amount: nat) returns (chunks: seq<nat>, tooMany: bool)
    ensures tooMany <==> |Chunks(amount)| > MAX_CHUNKS
    ensures !tooMany ==> chunks == Chunks(amount)
  {
    chunks := [];
    var remaining: nat := amount;
    assert chunks + Chunks(remaining) == Chunks(amount);
    while remaining > 0
      invariant remaining <= amount && |chunks| <= MAX_CHUNKS
      invariant chunks + Chunks(remaining) == Chunks(amount)
    {
      var chunk := Min(remaining, 100);
      Assoc(chunks, [chunk], Chunks(remaining - chunk));
      chunks := chunks + [chunk];
      remaining := remaining - chunk;
      if |chunks| > MAX_CHUNKS {
        assert |chunks + Chunks(remaining)| > MAX_CHUNKS;
        return chunks, true;
      }
    }
    assert chunks + [] == chunks;
    return chunks, false;
  }

  method PlaceChunks(cs: Containers, chunks: seq<nat>) returns (r: Result<Containers>)
    requires forall i | 0 <= i < |chunks| :: 1 <= chunks[i] <= 100
    ensures r == PlacedAll(cs, chunks)
  {
    var staged := cs;
    assert chunks[0..] == chunks;
    for i := 0 to |chunks|
      invariant PlacedAll(staged, chunks[i..]) == PlacedAll(cs, chunks)
    {
      assert chunks[i..][0] == chunks[i] && chunks[i..][1..] == chunks[i + 1..];
      var placed := PlaceStack(staged, chunks[i]);
      if placed.Err? {
        return Err;
      }
      staged := placed.value;
    }
    assert chunks[|chunks|..] == [];
    return Ok(staged);
  }

  method Strip(b: Bag) returns (after: Bag, gold: nat)
    ensures after == StrippedBag(b) && gold == Money(b)
  {
    var equipment, worn := StripSlots(b.equipment);
    var containers, held := StripContainers(b.containers);
    return Bag(equipment, containers), worn + held;
  }

  /** Stages a withdrawal; the containers count only if the reply says it went through. */
  method StageWithdrawal(a: Account, amount: u64) returns (reply: Reply, staged: Containers)
    ensures reply == WithdrawalReply(a, amount)
    ensures reply.Withdrew? ==>
      && (forall i | 0 <= i < |Chunks(amount)| :: 1 <= Chunks(amount)[i] <= 100)
      && PlacedAll(a.bag.containers, Chunks(amount)) == Ok(staged)
  {
    staged := a.bag.containers;
    if a.balance < amount {
      return NotEnough, staged;
    }
    var chunks, tooMany := Cut(amount);
    if tooMany {
      return TooMuch, staged;
    }
    ChunksAreBounded(amount);
    var placed := PlaceChunks(staged, chunks);
    if placed.Err? {
      return NoSpace, staged;
    }
    return Withdrew(amount), placed.value;
  }

  /** One player's inventory and account; the database and the world are one state here. */
  class Teller {
    var bag: Bag
    var balance: u64

    constructor (b: Bag, gold: u64)
      requires SoundBag(b)
      ensures bag == b && balance == gold
    {
      bag, balance := b, gold;
    }

    /** Handles one keyword next to (or away from) a bank officer. */
    method Handle(k: Keyword, officer: bool) returns (reply: Reply)
      requires SoundBag(bag)
      modifies this
      ensures SoundBag(bag)
      ensures reply == ReplyTo(old(Account(bag, balance)), k, officer)
      ensures Account(bag, balance) == After(old(Account(bag, balance)), k, officer)
    {
      KeywordConservesWealth(Account(bag, balance), k, officer);
      if !officer || k.Other? || k == Withdraw(0) {
        return NotHandled;
      }
      match k
      case Balance => reply := BalanceIs(balance);
      case DepositAll =>
        var stripped, deposited := Strip(bag);
        if deposited == 0 {
          return NoCoins;
        }
        bag := stripped;
        balance := Min(balance + deposited, U64_MAX);
        reply := Deposited(deposited);
      case Withdraw(amount) =>
        var staged;
        reply, staged := StageWithdrawal(Account(bag, balance), amount);
        if reply.Withdrew? {
          bag := bag.(containers := staged);
          balance := balance - amount;
        }
    }
  }
}
