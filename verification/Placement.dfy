module Placement {
  // Where every item is after a transfer: the place it went to, the place it left, and all the others.
  import opened Prelude
  import opened Items
  import opened Bags
  import opened Transfers

  // ----- places, old and new -----

  function At(b: Bag, s: Slot): Option<Item> {
    if s in b.equipment then Some(b.equipment[s]) else None
  }

  /** Every other slot holds what it held. */
  ghost predicate OtherSlots(b: Bag, after: Bag, slots: set<Slot>) {
    forall s: Slot | s !in slots :: At(after, s) == At(b, s)
  }

  /** The same containers, and every other one holds what it held. */
  ghost predicate OtherContainers(b: Bag, after: Bag, ids: set<ContainerId>) {
    && after.containers.Keys == b.containers.Keys
    && (forall id | id in b.containers :: after.containers[id].capacity == b.containers[id].capacity
                                       && after.containers[id].hasParent == b.containers[id].hasParent)
    && forall id | id in b.containers && id !in ids :: after.containers[id].items == b.containers[id].items
  }

  /** The stack can be merged into the existing one: same kind, and together no more than a hundred. */
  predicate Fits(existing: Item, item: Item) {
    Alike(existing, item) && existing.count + item.count <= 100
  }

  predicate Alike(existing: Item, item: Item) {
    existing.serverId == item.serverId && existing.action == item.action && existing.unique == item.unique
  }

  /** A list with room for a stack: one to merge with, or no stack of its kind and a free place. */
  predicate CanTake(xs: seq<Item>, capacity: nat, item: Item) {
    || (exists i :: 0 <= i < |xs| && Fits(xs[i], item))
    || ((forall i | 0 <= i < |xs| :: !Alike(xs[i], item)) && |xs| < capacity)
  }

  predicate FirstFit(xs: seq<Item>, item: Item, i: nat) {
    i < |xs| && Fits(xs[i], item) && forall j | 0 <= j < i :: !Fits(xs[j], item)
  }

  /** The stack went to the first one it fits, adding its count there, or to the end of the list. */
  ghost predicate Took(xs: seq<Item>, item: Item, ys: seq<Item>) {
    || (exists i: nat :: FirstFit(xs, item, i) && ys == xs[i := xs[i].(count := xs[i].count + item.count)])
    || ((forall i | 0 <= i < |xs| :: !Fits(xs[i], item)) && ys == xs + [item])
  }

  /** `n` units are gone from the stack at `i`, and the place with the last of them. */
  predicate Reduced(xs: seq<Item>, i: nat, n: int, ys: seq<Item>) {
    && i < |xs| && 0 < n <= xs[i].count
    && ys == if n < xs[i].count then xs[i := xs[i].(count := xs[i].count - n)] else xs[..i] + xs[i + 1..]
  }

  /** The item at `i` has lost its content number `c`, and nothing else. */
  predicate Opened(xs: seq<Item>, i: nat, c: nat, ys: seq<Item>) {
    && i < |xs| && c < |xs[i].contents|
    && ys == xs[i := xs[i].(contents := xs[i].contents[..c] + xs[i].contents[c + 1..])]
  }

  // ----- what each transfer needs -----

  predicate Has(b: Bag, id: ContainerId, i: nat) {
    id in b.containers && i < |b.containers[id].items|
  }

  predicate HasContent(b: Bag, id: ContainerId, i: nat, c: nat) {
    Has(b, id, i) && c < |b.containers[id].items[i].contents|
  }

  /** Exactly when a transfer goes through. */
  ghost predicate Possible(b: Bag, t: Transfer) {
    match t
    case EquipmentToContainer(s, id) =>
      s in b.equipment && id in b.containers && |b.containers[id].items| < b.containers[id].capacity
    case ContainerToEquipment(id, i, s) => s !in b.equipment && Has(b, id, i)
    case ContentToEquipment(id, i, c, s) => s !in b.equipment && HasContent(b, id, i, c)
    case ConsumeWorn(_) => true
    case ConsumeHeld(id, _) => id in b.containers
    case ContentToContainer(id, i, c, target) =>
      && HasContent(b, id, i, c) && target in b.containers && !b.containers[target].hasParent
      && exists mid :: Opened(b.containers[id].items, i, c, mid)
           && CanTake(if target == id then mid else b.containers[target].items, b.containers[target].capacity,
                      b.containers[id].items[i].contents[c])
    case SwapWithEquipment(id, i, s) => s in b.equipment && Has(b, id, i)
    case SwapEquipment(s, other) => s != other && s in b.equipment && other in b.equipment
    case WornStackToContainer(s, id, n) =>
      && s in b.equipment && 0 < n <= b.equipment[s].count && id in b.containers
      && CanTake(b.containers[id].items, b.containers[id].capacity, b.equipment[s].(count := n))
    case HeldStackToEquipment(id, i, s, n) =>
      && Has(b, id, i) && 0 < n <= b.containers[id].items[i].count
      && (s in b.equipment ==> Fits(b.equipment[s], b.containers[id].items[i].(count := n)))
    case HeldStackToContainer(id, i, target, n) =>
      && id != target && Has(b, id, i) && 0 < n <= b.containers[id].items[i].count && target in b.containers
      && CanTake(b.containers[target].items, b.containers[target].capacity, b.containers[id].items[i].(count := n))
    case Drop(Worn(s), n) => s in b.equipment && 0 < n <= b.equipment[s].count
    case Drop(Held(id, i), n) => Has(b, id, i) && 0 < n <= b.containers[id].items[i].count
    case Drop(Inside(id, i, c), n) => HasContent(b, id, i, c) && 0 < n <= b.containers[id].items[i].contents[c].count
  }

  // ----- where everything is afterwards -----

  /** A worn stack with `n` units gone. */
  predicate WornReduced(b: Bag, after: Bag, s: Slot, n: int) {
    && s in b.equipment && 0 < n <= b.equipment[s].count
    && At(after, s) == if n < b.equipment[s].count then Some(b.equipment[s].(count := b.equipment[s].count - n)) else None
  }

  ghost predicate Placed(b: Bag, t: Transfer, after: Bag, out: seq<Item>)
    requires Possible(b, t) && after.containers.Keys == b.containers.Keys
  {
    (!t.Drop? ==> out == []) &&
    match t
    case EquipmentToContainer(s, id) =>
      && At(after, s) == None && after.containers[id].items == b.containers[id].items + [b.equipment[s]]
      && OtherSlots(b, after, {s}) && OtherContainers(b, after, {id})
    case ContainerToEquipment(id, i, s) =>
      var xs := b.containers[id].items;
      && At(after, s) == Some(xs[i]) && after.containers[id].items == xs[..i] + xs[i + 1..]
      && OtherSlots(b, after, {s}) && OtherContainers(b, after, {id})
    case ContentToEquipment(id, i, c, s) =>
      var xs := b.containers[id].items;
      && At(after, s) == Some(xs[i].contents[c]) && Opened(xs, i, c, after.containers[id].items)
      && OtherSlots(b, after, {s}) && OtherContainers(b, after, {id})
    case ConsumeWorn(s) =>
      && (s in b.equipment ==>
            At(after, s) == if b.equipment[s].count > 1 then Some(b.equipment[s].(count := b.equipment[s].count - 1)) else None)
      && (s !in b.equipment ==> At(after, s) == None)
      && OtherSlots(b, after, {s}) && OtherContainers(b, after, {})
    case ConsumeHeld(id, i) =>
      var xs := b.containers[id].items;
      && after.containers[id].items == (if i >= |xs| then xs
                                        else if xs[i].count > 1 then xs[i := xs[i].(count := xs[i].count - 1)]
                                        else xs[..i] + xs[i + 1..])
      && OtherSlots(b, after, {}) && OtherContainers(b, after, {id})
    case ContentToContainer(id, i, c, target) =>
      var xs := b.containers[id].items;
      && (exists mid :: Opened(xs, i, c, mid) &&
            if target == id then Took(mid, xs[i].contents[c], after.containers[id].items)
            else after.containers[id].items == mid
                 && Took(b.containers[target].items, xs[i].contents[c], after.containers[target].items))
      && OtherSlots(b, after, {}) && OtherContainers(b, after, {id, target})
    case SwapWithEquipment(id, i, s) =>
      var xs := b.containers[id].items;
      && At(after, s) == Some(xs[i]) && after.containers[id].items == xs[i := b.equipment[s]]
      && OtherSlots(b, after, {s}) && OtherContainers(b, after, {id})
    case SwapEquipment(s, other) =>
      && At(after, s) == At(b, other) && At(after, other) == At(b, s)
      && OtherSlots(b, after, {s, other}) && OtherContainers(b, after, {})
    case WornStackToContainer(s, id, n) =>
      && WornReduced(b, after, s, n)
      && Took(b.containers[id].items, b.equipment[s].(count := n), after.containers[id].items)
      && OtherSlots(b, after, {s}) && OtherContainers(b, after, {id})
    case HeldStackToEquipment(id, i, s, n) =>
      var xs := b.containers[id].items;
      && Reduced(xs, i, n, after.containers[id].items)
      && At(after, s) == (if s in b.equipment then Some(b.equipment[s].(count := b.equipment[s].count + n))
                          else Some(xs[i].(count := n)))
      && OtherSlots(b, after, {s}) && OtherContainers(b, after, {id})
    case HeldStackToContainer(id, i, target, n) =>
      var xs := b.containers[id].items;
      && Reduced(xs, i, n, after.containers[id].items)
      && Took(b.containers[target].items, xs[i].(count := n), after.containers[target].items)
      && OtherSlots(b, after, {}) && OtherContainers(b, after, {id, target})
    case Drop(Worn(s), n) =>
      && WornReduced(b, after, s, n) && out == [b.equipment[s].(count := n)]
      && OtherSlots(b, after, {s}) && OtherContainers(b, after, {})
    case Drop(Held(id, i), n) =>
      && Reduced(b.containers[id].items, i, n, after.containers[id].items)
      && out == [b.containers[id].items[i].(count := n)]
      && OtherSlots(b, after, {}) && OtherContainers(b, after, {id})
    case Drop(Inside(id, i, c), n) =>
      && Opened(b.containers[id].items, i, c, after.containers[id].items)
      && out == [b.containers[id].items[i].contents[c].(count := n)]
      && OtherSlots(b, after, {}) && OtherContainers(b, after, {id})
  }

  // ----- the transfers do exactly that -----

  lemma {:induction false} FirstRoomMeans(xs: seq<Item>, item: Item, from: nat)
    requires from <= |xs|
    ensures match FirstRoom(xs, item, from)
      case Some(i) => from <= i < |xs| && Fits(xs[i], item) && forall j | from <= j < i :: !Fits(xs[j], item)
      case None => forall j | from <= j < |xs| :: !Fits(xs[j], item)
    decreases |xs| - from
  {
    if from < |xs| && !RoomFor(xs[from], item) {
      FirstRoomMeans(xs, item, from + 1);
    }
  }

  lemma StackingMeans(c: Container, item: Item)
    ensures Stacked(c, item).Ok? <==> CanTake(c.items, c.capacity, item)
    ensures Stacked(c, item).Ok? ==> Took(c.items, item, Stacked(c, item).value.items)
  {
    FirstRoomMeans(c.items, item, 0);
    if Merges(c, item) {
      StackingTakes(c, item);
    }
  }

  lemma StackingTakes(c: Container, item: Item)
    requires Merges(c, item)
    ensures Took(c.items, item, Stacked(c, item).value.items)
  {
    FirstRoomMeans(c.items, item, 0);
    assert FirstFit(c.items, item, FirstRoom(c.items, item, 0).value);
  }

  lemma WholeMovesPlace(b: Bag, t: Transfer)
    requires t.EquipmentToContainer? || t.ContainerToEquipment? || t.ContentToEquipment?
             || t.SwapWithEquipment? || t.SwapEquipment?
    ensures Performed(b, t).ok <==> Possible(b, t)
    ensures Performed(b, t).ok ==> Performed(b, t).bag.containers.Keys == b.containers.Keys
    ensures Performed(b, t).ok ==> Placed(b, t, Performed(b, t).bag, Performed(b, t).out)
  {
  }

  lemma ConsumingPlaces(b: Bag, t: Transfer)
    requires t.ConsumeWorn? || t.ConsumeHeld?
    ensures Performed(b, t).ok <==> Possible(b, t)
    ensures Performed(b, t).ok ==> Performed(b, t).bag.containers.Keys == b.containers.Keys
    ensures Performed(b, t).ok ==> Placed(b, t, Performed(b, t).bag, Performed(b, t).out)
  {
  }

  lemma DropsPlace(b: Bag, t: Transfer)
    requires t.Drop?
    ensures Performed(b, t).ok <==> Possible(b, t)
    ensures Performed(b, t).ok ==> Performed(b, t).bag.containers.Keys == b.containers.Keys
    ensures Performed(b, t).ok ==> Placed(b, t, Performed(b, t).bag, Performed(b, t).out)
  {
  }

  lemma StackMovesPlace(b: Bag, t: Transfer)
    requires t.WornStackToContainer? || t.HeldStackToEquipment?
    ensures Performed(b, t).ok <==> Possible(b, t)
    ensures Performed(b, t).ok ==> Performed(b, t).bag.containers.Keys == b.containers.Keys
    ensures Performed(b, t).ok ==> Placed(b, t, Performed(b, t).bag, Performed(b, t).out)
  {
    if t.WornStackToContainer? && t.slot in b.equipment && t.id in b.containers {
      StackingMeans(b.containers[t.id], b.equipment[t.slot].(count := t.count));
    }
  }

  lemma HeldStacksPlace(b: Bag, t: Transfer)
    requires t.HeldStackToContainer?
    ensures Performed(b, t).ok <==> Possible(b, t)
    ensures Performed(b, t).ok ==> Performed(b, t).bag.containers.Keys == b.containers.Keys
    ensures Performed(b, t).ok ==> Placed(b, t, Performed(b, t).bag, Performed(b, t).out)
  {
    if Has(b, t.id, t.index) && t.target in b.containers {
      StackingMeans(b.containers[t.target], b.containers[t.id].items[t.index].(count := t.count));
    }
  }

  lemma ContentMovesPlace(b: Bag, t: Transfer)
    requires t.ContentToContainer?
    ensures Performed(b, t).ok <==> Possible(b, t)
    ensures Performed(b, t).ok ==> Performed(b, t).bag.containers.Keys == b.containers.Keys
    ensures Performed(b, t).ok ==> Placed(b, t, Performed(b, t).bag, Performed(b, t).out)
  {
    var (id, i, c) := (t.id, t.index, t.content);
    if HasContent(b, id, i, c) && t.target in b.containers {
      var mid := LessInside(b, id, i, c);
      assert Opened(b.containers[id].items, i, c, mid.containers[id].items);
      StackingMeans(mid.containers[t.target], InsideItem(b, id, i, c));
    }
  }

  /** Content moved to a nested container: the one call that fails and writes. */
  predicate IntoNested(b: Bag, t: Transfer) {
    t.ContentToContainer? && HasContent(b, t.id, t.index, t.content)
    && t.target in b.containers && b.containers[t.target].hasParent
  }

  /**
   * A transfer goes through exactly when it can, and then every item is where it should be. One that
   * fails leaves everything in place, except that content moved to a nested container is gone.
   */
  ghost predicate Settles(b: Bag, t: Transfer, after: Bag, ok: bool, out: seq<Item>) {
    && (ok <==> Possible(b, t)) && after.containers.Keys == b.containers.Keys && (ok ==> Placed(b, t, after, out))
    && (!ok ==>
          && out == [] && (!IntoNested(b, t) ==> after == b)
          && (IntoNested(b, t) ==> OtherSlots(b, after, {}) && OtherContainers(b, after, {t.id})
                                   && Opened(b.containers[t.id].items, t.index, t.content, after.containers[t.id].items)))
  }

  lemma TransfersPlaceEverything(b: Bag, t: Transfer)
    ensures var step := Performed(b, t); Settles(b, t, step.bag, step.ok, step.out)
  {
    if t.Drop? {
      DropsPlace(b, t);
    } else if t.ConsumeWorn? || t.ConsumeHeld? {
      ConsumingPlaces(b, t);
    } else if t.ContentToContainer? {
      ContentMovesPlace(b, t);
    } else if t.WornStackToContainer? || t.HeldStackToEquipment? {
      StackMovesPlace(b, t);
    } else if t.HeldStackToContainer? {
      HeldStacksPlace(b, t);
    } else {
      WholeMovesPlace(b, t);
    }
  }
}
