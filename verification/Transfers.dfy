/** Moving items between slots, containers and contents: what each move conserves, exactly. */
module Transfers {
  import opened Prelude
  import opened Items
  import opened Bags

  datatype Source =
    | Worn(slot: Slot)
    | Held(id: ContainerId, index: nat)
    | Inside(id: ContainerId, index: nat, content: nat)

  datatype Transfer =
    | EquipmentToContainer(slot: Slot, id: ContainerId)
    | ContainerToEquipment(id: ContainerId, index: nat, slot: Slot)
    | ContentToEquipment(id: ContainerId, index: nat, content: nat, slot: Slot)
    | ConsumeWorn(slot: Slot)
    | ConsumeHeld(id: ContainerId, index: nat)
    | ContentToContainer(id: ContainerId, index: nat, content: nat, target: ContainerId)
    | SwapWithEquipment(id: ContainerId, index: nat, slot: Slot)
    | SwapEquipment(slot: Slot, other: Slot)
    | WornStackToContainer(slot: Slot, id: ContainerId, count: u16)
    | HeldStackToEquipment(id: ContainerId, index: nat, slot: Slot, count: u16)
    | HeldStackToContainer(id: ContainerId, index: nat, target: ContainerId, count: u16)
    | Drop(source: Source, count: u16)

  /** The inventory afterwards, whether the call succeeded, and what left the inventory. */
  datatype Step = Step(bag: Bag, ok: bool, out: seq<Item>)

  // ----- where items come from and go to -----

  predicate HasHeld(b: Bag, id: ContainerId, index: nat) {
    id in b.containers && index < |b.containers[id].items|
  }

  predicate HasInside(b: Bag, id: ContainerId, index: nat, content: nat) {
    HasHeld(b, id, index) && content < |b.containers[id].items[index].contents|
  }

  function HeldItem(b: Bag, id: ContainerId, index: nat): Item
    requires HasHeld(b, id, index)
  {
    b.containers[id].items[index]
  }

  function InsideItem(b: Bag, id: ContainerId, index: nat, content: nat): Item
    requires HasInside(b, id, index, content)
  {
    HeldItem(b, id, index).contents[content]
  }

  /** `n` units are gone from a worn stack. */
  function LessWorn(b: Bag, s: Slot, n: u16): Bag
    requires s in b.equipment && Splittable(b.equipment[s], n)
  {
    var item := b.equipment[s];
    if n < item.count then Wearing(b, s, Part(item, item.count - n)) else Bare(b, s)
  }

  function LessHeld(b: Bag, id: ContainerId, index: nat, n: u16): Bag
    requires HasHeld(b, id, index) && Splittable(HeldItem(b, id, index), n)
  {
    var items, item := b.containers[id].items, HeldItem(b, id, index);
    Holding(b, id, if n < item.count then items[index := Part(item, item.count - n)] else Without(items, index))
  }

  function LessInside(b: Bag, id: ContainerId, index: nat, content: nat): Bag
    requires HasInside(b, id, index, content)
  {
    var items, item := b.containers[id].items, HeldItem(b, id, index);
    Holding(b, id, items[index := item.(contents := Without(item.contents, content))])
  }

  function Given(b: Bag, id: ContainerId, item: Item): Result<Bag> {
    if id !in b.containers then Err
    else
      match Stacked(b.containers[id], item)
      case Err => Err
      case Ok(c) => Ok(Holding(b, id, c.items))
  }

  function Stepped(b: Bag, r: Result<Bag>): Step {
    match r
    case Ok(after) => Step(after, true, [])
    case Err => Step(b, false, [])
  }

  // ----- the moves -----

  function Performed(b: Bag, t: Transfer): Step {
    match t
    case EquipmentToContainer(s, id) =>
      if s !in b.equipment || id !in b.containers || |b.containers[id].items| >= b.containers[id].capacity then Step(b, false, [])
      else Step(Holding(Bare(b, s), id, b.containers[id].items + [b.equipment[s]]), true, [])
    case ContainerToEquipment(id, i, s) =>
      if s in b.equipment || !HasHeld(b, id, i) then Step(b, false, [])
      else Step(Wearing(Holding(b, id, Without(b.containers[id].items, i)), s, HeldItem(b, id, i)), true, [])
    case ContentToEquipment(id, i, n, s) =>
      if s in b.equipment || !HasInside(b, id, i, n) then Step(b, false, [])
      else Step(Wearing(LessInside(b, id, i, n), s, InsideItem(b, id, i, n)), true, [])
    case ConsumeWorn(s) =>
      if s !in b.equipment then Step(b, true, [])
      else if b.equipment[s].count > 1 then Step(LessWorn(b, s, 1), true, [])
      else Step(Bare(b, s), true, [])
    case ConsumeHeld(id, i) =>
      if id !in b.containers then Step(b, false, [])
      else if !HasHeld(b, id, i) then Step(b, true, [])
      else if HeldItem(b, id, i).count > 1 then Step(LessHeld(b, id, i, 1), true, [])
      else Step(Holding(b, id, Without(b.containers[id].items, i)), true, [])
    case ContentToContainer(id, i, n, target) =>
      if !HasInside(b, id, i, n) || target !in b.containers then Step(b, false, [])
      else if b.containers[target].hasParent then Step(LessInside(b, id, i, n), false, [])
      else Stepped(b, Given(LessInside(b, id, i, n), target, InsideItem(b, id, i, n)))
    case SwapWithEquipment(id, i, s) =>
      if s !in b.equipment || !HasHeld(b, id, i) then Step(b, false, [])
      else Step(Wearing(Holding(b, id, b.containers[id].items[i := b.equipment[s]]), s, HeldItem(b, id, i)), true, [])
    case SwapEquipment(s, other) =>
      if s == other || s !in b.equipment || other !in b.equipment then Step(b, false, [])
      else Step(Wearing(Wearing(b, s, b.equipment[other]), other, b.equipment[s]), true, [])
    case WornStackToContainer(s, id, n) =>
      if s !in b.equipment || !Splittable(b.equipment[s], n) then Step(b, false, [])
      else Stepped(b, Given(LessWorn(b, s, n), id, Part(b.equipment[s], n)))
    case HeldStackToEquipment(id, i, s, n) =>
      if !HasHeld(b, id, i) || !Splittable(HeldItem(b, id, i), n) then Step(b, false, [])
      else
        var moved := Part(HeldItem(b, id, i), n);
        if s !in b.equipment then Step(Wearing(LessHeld(b, id, i, n), s, moved), true, [])
        else if RoomFor(b.equipment[s], moved) then
          Step(Wearing(LessHeld(b, id, i, n), s, MergedWith(b.equipment[s], moved)), true, [])
        else Step(b, false, [])
    case HeldStackToContainer(id, i, target, n) =>
      if id == target || !HasHeld(b, id, i) || !Splittable(HeldItem(b, id, i), n) then Step(b, false, [])
      else Stepped(b, Given(LessHeld(b, id, i, n), target, Part(HeldItem(b, id, i), n)))
    case Drop(Worn(s), n) =>
      if s !in b.equipment || !Splittable(b.equipment[s], n) then Step(b, false, [])
      else Step(LessWorn(b, s, n), true, [Part(b.equipment[s], n)])
    case Drop(Held(id, i), n) =>
      if !HasHeld(b, id, i) || !Splittable(HeldItem(b, id, i), n) then Step(b, false, [])
      else Step(LessHeld(b, id, i, n), true, [Part(HeldItem(b, id, i), n)])
    case Drop(Inside(id, i, c), n) =>
      if !HasInside(b, id, i, c) || !Splittable(InsideItem(b, id, i, c), n) then Step(b, false, [])
      else Step(LessInside(b, id, i, c), true, [Part(InsideItem(b, id, i, c), n)])
  }

  // ----- conservation, with everything that is lost or copied -----

  /** A part that was split off carries a copy of the contents; a part that was merged loses them. */
  function Copied(k: Kind, item: Item, n: u16, merged: bool): int {
    (if n < item.count then UnitsIn(k, item.contents) else 0) - if merged then UnitsIn(k, item.contents) else 0
  }

  /** How many units of a kind a successful or failed move creates (or, negative, destroys). */
  function Drift(k: Kind, b: Bag, t: Transfer): int {
    if !Performed(b, t).ok then
      if LosesOnError(b, t) then 0 - Units(k, InsideItem(b, t.id, t.index, t.content)) else 0
    else
      match t
      case ConsumeWorn(s) => if s in b.equipment then Consumed(k, b.equipment[s]) else 0
      case ConsumeHeld(id, i) => if HasHeld(b, id, i) then Consumed(k, HeldItem(b, id, i)) else 0
      case ContentToContainer(id, i, n, target) =>
        var item := InsideItem(b, id, i, n);
        if Merges(LessInside(b, id, i, n).containers[target], item) then 0 - UnitsIn(k, item.contents) else 0
      case WornStackToContainer(s, id, n) =>
        Copied(k, b.equipment[s], n, Merges(b.containers[id], Part(b.equipment[s], n)))
      case HeldStackToEquipment(id, i, s, n) => Copied(k, HeldItem(b, id, i), n, s in b.equipment)
      case HeldStackToContainer(id, i, target, n) =>
        Copied(k, HeldItem(b, id, i), n, Merges(b.containers[target], Part(HeldItem(b, id, i), n)))
      case Drop(Worn(s), n) => Copied(k, b.equipment[s], n, false)
      case Drop(Held(id, i), n) => Copied(k, HeldItem(b, id, i), n, false)
      case Drop(Inside(id, i, c), n) => 0 - Own(k, Part(InsideItem(b, id, i, c), InsideItem(b, id, i, c).count - n))
      case _ => 0
  }

  /** One unit, and the contents with the last unit. */
  function Consumed(k: Kind, item: Item): int {
    if item.count > 1 then 0 - Own(k, Part(item, 1)) else 0 - Units(k, item)
  }

  /** The one failing call that writes: a content item moved to a nested container is gone. */
  predicate LosesOnError(b: Bag, t: Transfer) {
    t.ContentToContainer? && HasInside(b, t.id, t.index, t.content)
    && t.target in b.containers && b.containers[t.target].hasParent
  }

  lemma LessWornUnits(k: Kind, b: Bag, s: Slot, n: u16)
    requires s in b.equipment && Splittable(b.equipment[s], n)
    ensures BagUnits(k, LessWorn(b, s, n)) + Units(k, Part(b.equipment[s], n))
         == BagUnits(k, b) + Copied(k, b.equipment[s], n, false)
  {
    var item := b.equipment[s];
    if n < item.count {
      WearingUnits(k, b, s, Part(item, item.count - n));
      SplittingCopiesContents(k, item, n);
    } else {
      BareUnits(k, b, s);
    }
  }

  lemma LessHeldUnits(k: Kind, b: Bag, id: ContainerId, i: nat, n: u16)
    requires HasHeld(b, id, i) && Splittable(HeldItem(b, id, i), n)
    ensures BagUnits(k, LessHeld(b, id, i, n)) + Units(k, Part(HeldItem(b, id, i), n))
         == BagUnits(k, b) + Copied(k, HeldItem(b, id, i), n, false)
  {
    var items, item := b.containers[id].items, HeldItem(b, id, i);
    if n < item.count {
      HoldingUnits(k, b, id, items[i := Part(item, item.count - n)]);
      UnitsReplaced(k, items, i, Part(item, item.count - n));
      SplittingCopiesContents(k, item, n);
    } else {
      HoldingUnits(k, b, id, Without(items, i));
      UnitsWithout(k, items, i);
    }
  }

  lemma LessInsideUnits(k: Kind, b: Bag, id: ContainerId, i: nat, c: nat)
    requires HasInside(b, id, i, c)
    ensures BagUnits(k, LessInside(b, id, i, c)) + Units(k, InsideItem(b, id, i, c)) == BagUnits(k, b)
  {
    var items, item := b.containers[id].items, HeldItem(b, id, i);
    var rest := item.(contents := Without(item.contents, c));
    HoldingUnits(k, b, id, items[i := rest]);
    UnitsReplaced(k, items, i, rest);
    UnitsWithout(k, item.contents, c);
  }

  lemma GivenUnits(k: Kind, b: Bag, id: ContainerId, item: Item)
    requires Given(b, id, item).Ok?
    ensures BagUnits(k, Given(b, id, item).value) + (if Merges(b.containers[id], item) then UnitsIn(k, item.contents) else 0)
         == BagUnits(k, b) + Units(k, item)
  {
    StackingAdds(k, b.containers[id], item);
    HoldingUnits(k, b, id, Stacked(b.containers[id], item).value.items);
  }

  /** Moves of whole items between a slot and a container conserve every unit. */
  lemma WholeMovesConserve(k: Kind, b: Bag, t: Transfer)
    requires Performed(b, t).ok
    requires t.EquipmentToContainer? || t.ContainerToEquipment? || t.ContentToEquipment?
             || t.SwapWithEquipment? || t.SwapEquipment?
    ensures BagUnits(k, Performed(b, t).bag) == BagUnits(k, b)
  {
    match t
    case EquipmentToContainer(s, id) =>
      var items := b.containers[id].items;
      BareUnits(k, b, s);
      HoldingUnits(k, Bare(b, s), id, items + [b.equipment[s]]);
      UnitsInConcat(k, items, [b.equipment[s]]);
      UnitsOfOne(k, b.equipment[s]);
    case ContainerToEquipment(id, i, s) =>
      var items := b.containers[id].items;
      HoldingUnits(k, b, id, Without(items, i));
      UnitsWithout(k, items, i);
      WearingUnits(k, Holding(b, id, Without(items, i)), s, items[i]);
    case ContentToEquipment(id, i, c, s) =>
      LessInsideUnits(k, b, id, i, c);
      WearingUnits(k, LessInside(b, id, i, c), s, InsideItem(b, id, i, c));
    case SwapWithEquipment(id, i, s) =>
      var items := b.containers[id].items;
      HoldingUnits(k, b, id, items[i := b.equipment[s]]);
      UnitsReplaced(k, items, i, b.equipment[s]);
      WearingUnits(k, Holding(b, id, items[i := b.equipment[s]]), s, items[i]);
    case SwapEquipment(s, other) =>
      WearingUnits(k, b, s, b.equipment[other]);
      WearingUnits(k, Wearing(b, s, b.equipment[other]), other, b.equipment[s]);
  }

  lemma StackMovesDrift(k: Kind, b: Bag, t: Transfer)
    requires Performed(b, t).ok
    requires t.WornStackToContainer? || t.HeldStackToEquipment? || t.HeldStackToContainer?
    ensures BagUnits(k, Performed(b, t).bag) == BagUnits(k, b) + Drift(k, b, t)
  {
    match t
    case WornStackToContainer(s, id, n) =>
      LessWornUnits(k, b, s, n);
      GivenUnits(k, LessWorn(b, s, n), id, Part(b.equipment[s], n));
    case HeldStackToEquipment(id, i, s, n) =>
      var moved := Part(HeldItem(b, id, i), n);
      LessHeldUnits(k, b, id, i, n);
      WearingUnits(k, LessHeld(b, id, i, n), s, if s in b.equipment then MergedWith(b.equipment[s], moved) else moved);
    case HeldStackToContainer(id, i, target, n) =>
      LessHeldUnits(k, b, id, i, n);
      GivenUnits(k, LessHeld(b, id, i, n), target, Part(HeldItem(b, id, i), n));
  }

  lemma DropsDrift(k: Kind, b: Bag, t: Transfer)
    requires Performed(b, t).ok && t.Drop?
    ensures BagUnits(k, Performed(b, t).bag) + UnitsIn(k, Performed(b, t).out) == BagUnits(k, b) + Drift(k, b, t)
  {
    match t
    case Drop(Worn(s), n) =>
      LessWornUnits(k, b, s, n);
      UnitsOfOne(k, Part(b.equipment[s], n));
    case Drop(Held(id, i), n) =>
      LessHeldUnits(k, b, id, i, n);
      UnitsOfOne(k, Part(HeldItem(b, id, i), n));
    case Drop(Inside(id, i, c), n) =>
      LessInsideUnits(k, b, id, i, c);
      UnitsOfOne(k, Part(InsideItem(b, id, i, c), n));
      SplittingCopiesContents(k, InsideItem(b, id, i, c), n);
  }

  /** The balance of every call: what is in the inventory and on the ground, against what was there. */
  lemma EveryMoveIsAccountedFor(k: Kind, b: Bag, t: Transfer)
    ensures BagUnits(k, Performed(b, t).bag) + UnitsIn(k, Performed(b, t).out) == BagUnits(k, b) + Drift(k, b, t)
  {
    if !Performed(b, t).ok {
      if LosesOnError(b, t) {
        LessInsideUnits(k, b, t.id, t.index, t.content);
      }
    } else {
      match t
      case ConsumeWorn(s) =>
        if s in b.equipment {
          if b.equipment[s].count > 1 {
            LessWornUnits(k, b, s, 1);
          } else {
            BareUnits(k, b, s);
          }
        }
      case ConsumeHeld(id, i) =>
        if HasHeld(b, id, i) {
          if HeldItem(b, id, i).count > 1 {
            LessHeldUnits(k, b, id, i, 1);
          } else {
            HoldingUnits(k, b, id, Without(b.containers[id].items, i));
            UnitsWithout(k, b.containers[id].items, i);
          }
        }
      case ContentToContainer(id, i, c, target) =>
        LessInsideUnits(k, b, id, i, c);
        GivenUnits(k, LessInside(b, id, i, c), target, InsideItem(b, id, i, c));
      case WornStackToContainer(_, _, _) => StackMovesDrift(k, b, t);
      case HeldStackToEquipment(_, _, _, _) => StackMovesDrift(k, b, t);
      case HeldStackToContainer(_, _, _, _) => StackMovesDrift(k, b, t);
      case Drop(_, _) => DropsDrift(k, b, t);
      case _ => WholeMovesConserve(k, b, t);
    }
  }

  // ----- exactly when a move conserves everything -----

  /** Contents are neither copied nor dropped: a part stays behind exactly if the moved part is merged. */
  predicate KeepsContents(item: Item, n: u16, merged: bool) {
    item.contents == [] || (n < item.count <==> merged)
  }

  predicate Harmless(b: Bag, t: Transfer) {
    if !Performed(b, t).ok then !LosesOnError(b, t)
    else
      match t
      case ConsumeWorn(s) => s !in b.equipment
      case ConsumeHeld(id, i) => !HasHeld(b, id, i)
      case ContentToContainer(id, i, n, target) =>
        InsideItem(b, id, i, n).contents == []
        || !Merges(LessInside(b, id, i, n).containers[target], InsideItem(b, id, i, n))
      case WornStackToContainer(s, id, n) =>
        KeepsContents(b.equipment[s], n, Merges(b.containers[id], Part(b.equipment[s], n)))
      case HeldStackToEquipment(id, i, s, n) => KeepsContents(HeldItem(b, id, i), n, s in b.equipment)
      case HeldStackToContainer(id, i, target, n) =>
        KeepsContents(HeldItem(b, id, i), n, Merges(b.containers[target], Part(HeldItem(b, id, i), n)))
      case Drop(Worn(s), n) => KeepsContents(b.equipment[s], n, false)
      case Drop(Held(id, i), n) => KeepsContents(HeldItem(b, id, i), n, false)
      case Drop(Inside(id, i, c), n) => n == InsideItem(b, id, i, c).count
      case _ => true
  }

  /** A kind that shows the drift of a move that is not harmless. */
  lemma DriftShows(b: Bag, t: Transfer) returns (k: Kind)
    requires SoundBag(b) && !Harmless(b, t)
    ensures Drift(k, b, t) != 0
  {
    if !Performed(b, t).ok {
      k := KindOf(InsideItem(b, t.id, t.index, t.content));
      InsideIsSound(b, t.id, t.index, t.content);
    } else {
      match t
      case ConsumeWorn(s) => k := KindOf(b.equipment[s]);
      case ConsumeHeld(id, i) =>
        k := KindOf(HeldItem(b, id, i));
        HeldIsSound(b, id, i);
      case ContentToContainer(id, i, n, target) =>
        InsideIsSound(b, id, i, n);
        k := Witness(InsideItem(b, id, i, n));
      case WornStackToContainer(s, id, n) => k := Witness(b.equipment[s]);
      case HeldStackToEquipment(id, i, s, n) =>
        HeldIsSound(b, id, i);
        k := Witness(HeldItem(b, id, i));
      case HeldStackToContainer(id, i, target, n) =>
        HeldIsSound(b, id, i);
        k := Witness(HeldItem(b, id, i));
      case Drop(Worn(s), n) => k := Witness(b.equipment[s]);
      case Drop(Held(id, i), n) =>
        HeldIsSound(b, id, i);
        k := Witness(HeldItem(b, id, i));
      case Drop(Inside(id, i, c), n) =>
        InsideIsSound(b, id, i, c);
        k := KindOf(InsideItem(b, id, i, c));
    }
  }

  lemma Witness(item: Item) returns (k: Kind)
    requires SoundItem(item) && item.contents != []
    ensures UnitsIn(k, item.contents) > 0
  {
    ContentsCount(item.contents);
    k := KindOf(item.contents[|item.contents| - 1]);
  }

  lemma HeldIsSound(b: Bag, id: ContainerId, i: nat)
    requires SoundBag(b) && HasHeld(b, id, i)
    ensures SoundItem(HeldItem(b, id, i))
  {
    assert HeldItem(b, id, i) in b.containers[id].items;
  }

  lemma InsideIsSound(b: Bag, id: ContainerId, i: nat, c: nat)
    requires SoundBag(b) && HasInside(b, id, i, c)
    ensures SoundItem(InsideItem(b, id, i, c))
  {
    HeldIsSound(b, id, i);
    assert InsideItem(b, id, i, c) in HeldItem(b, id, i).contents;
  }

  /**
   * Units of every kind are conserved, counting what was dropped, exactly by the harmless moves: those
   * that consume nothing, neither copy nor merge away contents, drop content stacks whole, and do not
   * move content to a nested container.
   */
  lemma ConservesExactlyIfHarmless(b: Bag, t: Transfer)
    requires SoundBag(b)
    ensures (forall k :: BagUnits(k, Performed(b, t).bag) + UnitsIn(k, Performed(b, t).out) == BagUnits(k, b)) <==> Harmless(b, t)
  {
    if Harmless(b, t) {
      forall k ensures BagUnits(k, Performed(b, t).bag) + UnitsIn(k, Performed(b, t).out) == BagUnits(k, b) {
        EveryMoveIsAccountedFor(k, b, t);
      }
    } else {
      var k := DriftShows(b, t);
      EveryMoveIsAccountedFor(k, b, t);
    }
  }

  /** A failing call leaves the inventory alone, except a content move to a nested container. */
  lemma FailureChangesNothing(b: Bag, t: Transfer)
    requires SoundBag(b) && !Performed(b, t).ok
    ensures Performed(b, t).bag == b <==> !LosesOnError(b, t)
  {
    if LosesOnError(b, t) {
      var item := InsideItem(b, t.id, t.index, t.content);
      InsideIsSound(b, t.id, t.index, t.content);
      LessInsideUnits(KindOf(item), b, t.id, t.index, t.content);
    }
  }

  // ----- bounds -----

  lemma PartsAreSound(item: Item, n: u16)
    requires SoundItem(item) && Splittable(item, n)
    ensures SoundItem(Part(item, n))
    ensures n < item.count ==> SoundItem(Part(item, item.count - n))
  {
  }

  lemma WithoutIsSound(items: seq<Item>, i: nat)
    requires SoundItems(items) && i < |items|
    ensures SoundItems(Without(items, i)) && |Without(items, i)| < |items|
  {
    forall x | x in Without(items, i) ensures x in items {}
  }

  lemma ReplacedIsSound(items: seq<Item>, i: nat, item: Item)
    requires SoundItems(items) && i < |items| && SoundItem(item)
    ensures SoundItems(items[i := item])
  {
    forall x | x in items[i := item] ensures x in items || x == item {}
  }

  lemma LessHeldIsSound(b: Bag, id: ContainerId, i: nat, n: u16)
    requires SoundBag(b) && HasHeld(b, id, i) && Splittable(HeldItem(b, id, i), n)
    ensures SoundBag(LessHeld(b, id, i, n)) && SoundItem(Part(HeldItem(b, id, i), n))
  {
    var items, item := b.containers[id].items, HeldItem(b, id, i);
    HeldIsSound(b, id, i);
    PartsAreSound(item, n);
    if n < item.count {
      ReplacedIsSound(items, i, Part(item, item.count - n));
      HoldingIsSound(b, id, items[i := Part(item, item.count - n)]);
    } else {
      WithoutIsSound(items, i);
      HoldingIsSound(b, id, Without(items, i));
    }
  }

  lemma LessInsideIsSound(b: Bag, id: ContainerId, i: nat, c: nat)
    requires SoundBag(b) && HasInside(b, id, i, c)
    ensures SoundBag(LessInside(b, id, i, c)) && SoundItem(InsideItem(b, id, i, c))
  {
    var items, item := b.containers[id].items, HeldItem(b, id, i);
    InsideIsSound(b, id, i, c);
    HeldIsSound(b, id, i);
    WithoutIsSound(item.contents, c);
    ReplacedIsSound(items, i, item.(contents := Without(item.contents, c)));
    HoldingIsSound(b, id, items[i := item.(contents := Without(item.contents, c))]);
  }

  lemma GivenIsSound(b: Bag, id: ContainerId, item: Item)
    requires SoundBag(b) && SoundItem(item) && Given(b, id, item).Ok?
    ensures SoundBag(Given(b, id, item).value)
  {
    StackingIsSound(b.containers[id], item);
    HoldingIsSound(b, id, Stacked(b.containers[id], item).value.items);
  }

  lemma LessWornIsSound(b: Bag, s: Slot, n: u16)
    requires SoundBag(b) && s in b.equipment && Splittable(b.equipment[s], n)
    ensures SoundBag(LessWorn(b, s, n)) && SoundItem(Part(b.equipment[s], n))
  {
  }

  lemma WholeMovesKeepBounds(b: Bag, t: Transfer)
    requires SoundBag(b) && Performed(b, t).ok
    requires t.EquipmentToContainer? || t.ContainerToEquipment? || t.ContentToEquipment?
             || t.SwapWithEquipment? || t.SwapEquipment? || t.ConsumeWorn? || t.ConsumeHeld?
    ensures SoundBag(Performed(b, t).bag)
  {
    match t
    case EquipmentToContainer(s, id) => HoldingIsSound(Bare(b, s), id, b.containers[id].items + [b.equipment[s]]);
    case ContainerToEquipment(id, i, s) =>
      HeldIsSound(b, id, i);
      WithoutIsSound(b.containers[id].items, i);
      HoldingIsSound(b, id, Without(b.containers[id].items, i));
    case ContentToEquipment(id, i, c, s) => LessInsideIsSound(b, id, i, c);
    case ConsumeWorn(s) =>
    case ConsumeHeld(id, i) =>
      if HasHeld(b, id, i) {
        HeldIsSound(b, id, i);
        LessHeldIsSound(b, id, i, 1);
      }
    case SwapWithEquipment(id, i, s) =>
      HeldIsSound(b, id, i);
      ReplacedIsSound(b.containers[id].items, i, b.equipment[s]);
      HoldingIsSound(b, id, b.containers[id].items[i := b.equipment[s]]);
    case SwapEquipment(s, other) =>
  }

  lemma StackMovesKeepBounds(b: Bag, t: Transfer)
    requires SoundBag(b) && Performed(b, t).ok
    requires t.WornStackToContainer? || t.HeldStackToEquipment? || t.HeldStackToContainer? || t.ContentToContainer?
    ensures SoundBag(Performed(b, t).bag)
  {
    match t
    case ContentToContainer(id, i, c, target) =>
      LessInsideIsSound(b, id, i, c);
      GivenIsSound(LessInside(b, id, i, c), target, InsideItem(b, id, i, c));
    case WornStackToContainer(s, id, n) =>
      LessWornIsSound(b, s, n);
      GivenIsSound(LessWorn(b, s, n), id, Part(b.equipment[s], n));
    case HeldStackToEquipment(id, i, s, n) => LessHeldIsSound(b, id, i, n);
    case HeldStackToContainer(id, i, target, n) =>
      LessHeldIsSound(b, id, i, n);
      GivenIsSound(LessHeld(b, id, i, n), target, Part(HeldItem(b, id, i), n));
  }

  lemma DropsKeepBounds(b: Bag, t: Transfer)
    requires SoundBag(b) && Performed(b, t).ok && t.Drop?
    ensures SoundBag(Performed(b, t).bag) && SoundItems(Performed(b, t).out)
  {
    match t
    case Drop(Worn(s), n) => LessWornIsSound(b, s, n);
    case Drop(Held(id, i), n) => LessHeldIsSound(b, id, i, n);
    case Drop(Inside(id, i, c), n) => LessInsideIsSound(b, id, i, c);
  }

  /** Every move, successful or not, keeps stack sizes, capacities and the number of containers in bounds. */
  lemma MovesKeepBounds(b: Bag, t: Transfer)
    requires SoundBag(b)
    ensures SoundBag(Performed(b, t).bag) && SoundItems(Performed(b, t).out)
  {
    if !Performed(b, t).ok {
      if LosesOnError(b, t) {
        LessInsideIsSound(b, t.id, t.index, t.content);
      }
    } else if t.Drop? {
      DropsKeepBounds(b, t);
    } else if t.WornStackToContainer? || t.HeldStackToEquipment? || t.HeldStackToContainer? || t.ContentToContainer? {
      StackMovesKeepBounds(b, t);
    } else {
      WholeMovesKeepBounds(b, t);
    }
  }

  // ----- runs -----

  /** A run of moves: the inventory it leaves and everything it dropped. */
  function RunOf(b: Bag, ts: seq<Transfer>): Step {
    if ts == [] then Step(b, true, [])
    else
      var before := RunOf(b, ts[..|ts| - 1]);
      var last := Performed(before.bag, ts[|ts| - 1]);
      Step(last.bag, last.ok, before.out + last.out)
  }

  function TotalDrift(k: Kind, b: Bag, ts: seq<Transfer>): int {
    if ts == [] then 0
    else TotalDrift(k, b, ts[..|ts| - 1]) + Drift(k, RunOf(b, ts[..|ts| - 1]).bag, ts[|ts| - 1])
  }

  /** The balance of a whole run. */
  lemma {:induction false} EveryRunIsAccountedFor(k: Kind, b: Bag, ts: seq<Transfer>)
    ensures BagUnits(k, RunOf(b, ts).bag) + UnitsIn(k, RunOf(b, ts).out) == BagUnits(k, b) + TotalDrift(k, b, ts)
  {
    if ts != [] {
      var before := RunOf(b, ts[..|ts| - 1]);
      EveryRunIsAccountedFor(k, b, ts[..|ts| - 1]);
      EveryMoveIsAccountedFor(k, before.bag, ts[|ts| - 1]);
      UnitsInConcat(k, before.out, Performed(before.bag, ts[|ts| - 1]).out);
    }
  }

  lemma {:induction false} RunsKeepBounds(b: Bag, ts: seq<Transfer>)
    requires SoundBag(b)
    ensures SoundBag(RunOf(b, ts).bag)
  {
    if ts != [] {
      RunsKeepBounds(b, ts[..|ts| - 1]);
      MovesKeepBounds(RunOf(b, ts[..|ts| - 1]).bag, ts[|ts| - 1]);
    }
  }

  // ----- inputs on which units are lost and copied -----

  const COINS := Item(2148, 5, None, None, [])
  const PURSE := Item(1987, 1, None, None, [COINS])

  /** A purse in one container, and a container that is nested in another. */
  const PURSE_AND_NESTED := Bag(map[], map[0 := Container(8, false, [PURSE]), 1 := Container(8, true, [])])

  /** Two purses stacked on one slot, sharing their contents. */
  const TWO_PURSES := Bag(map[3 := PURSE.(count := 2)], map[0 := Container(8, false, [])])

  lemma ExamplesAreSound()
    ensures SoundBag(PURSE_AND_NESTED) && SoundBag(TWO_PURSES)
  {
    assert SoundItem(COINS) && SoundItem(PURSE) && SoundItem(PURSE.(count := 2));
    assert PURSE_AND_NESTED.containers.Keys == {0, 1} && TWO_PURSES.containers.Keys == {0};
  }

  /** The move fails, and the coins are in neither container. */
  lemma MovingToNestedLosesTheCoins(b: Bag)
    requires b == PURSE_AND_NESTED
    ensures var after := Performed(b, ContentToContainer(0, 0, 0, 1));
      !after.ok && after.out == [] && after.bag == Holding(b, 0, [PURSE.(contents := [])])
  {
    assert b.containers[0].items == [PURSE] && PURSE.contents == [COINS];
    assert Without([COINS], 0) == [];
    assert [PURSE][0 := PURSE.(contents := [])] == [PURSE.(contents := [])];
  }

  lemma SplitStays(b: Bag, s: Slot, id: ContainerId, n: u16)
    requires s in b.equipment && 0 < n < b.equipment[s].count && id in b.containers
    requires b.containers[id].items == [] && b.containers[id].capacity > 0
    ensures Performed(b, WornStackToContainer(s, id, n))
         == Step(Holding(Wearing(b, s, Part(b.equipment[s], b.equipment[s].count - n)), id, [Part(b.equipment[s], n)]), true, [])
  {
    var moved := Part(b.equipment[s], n);
    assert [] + [moved] == [moved];
    assert Stacked(b.containers[id], moved) == Ok(b.containers[id].(items := [moved]));
  }

  /** One purse stays, one goes into the container, and both hold the coins. */
  lemma SplittingCopiesTheCoins(b: Bag)
    requires b == TWO_PURSES
    ensures var after := Performed(b, WornStackToContainer(3, 0, 1));
      after.ok && after.out == [] && after.bag == Holding(Wearing(b, 3, PURSE), 0, [PURSE])
  {
    SplitStays(b, 3, 0, 1);
  }
}
