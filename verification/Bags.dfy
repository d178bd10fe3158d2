/**
 * One player's inventory: fixed equipment slots and owned containers, the units they hold, and the
 * bounds on stacks and capacities.
 */
module Bags {
  import opened Prelude
  import opened Items

  /** Codes of the ten fixed equipment slots. */
  type Slot = x: int | 1 <= x <= 10 witness 1
  type ContainerId = u8

  type Equipment = map<Slot, Item>
  type Containers = map<ContainerId, Container>

  datatype Bag = Bag(equipment: Equipment, containers: Containers)

  // ----- counting -----

  function WornUnits(k: Kind, e: Equipment, n: nat): nat {
    if n == 0 then 0 else WornUnits(k, e, n - 1) + if n - 1 in e then Units(k, e[n - 1]) else 0
  }

  function HeldUnits(k: Kind, cs: Containers, n: nat): nat {
    if n == 0 then 0 else HeldUnits(k, cs, n - 1) + if n - 1 in cs then UnitsIn(k, cs[n - 1].items) else 0
  }

  /** Units of a kind over all slots, containers and nested contents. */
  function BagUnits(k: Kind, b: Bag): nat {
    WornUnits(k, b.equipment, 11) + HeldUnits(k, b.containers, 256)
  }

  lemma {:induction false} WornWithout(k: Kind, e: Equipment, s: Slot, n: nat)
    requires s in e
    ensures WornUnits(k, e, n) == WornUnits(k, e - {s}, n) + if s < n then Units(k, e[s]) else 0
  {
    if n > 0 {
      WornWithout(k, e, s, n - 1);
    }
  }

  lemma {:induction false} HeldChanged(k: Kind, cs: Containers, id: ContainerId, c: Container, n: nat)
    requires id in cs
    ensures HeldUnits(k, cs[id := c], n) + (if id < n then UnitsIn(k, cs[id].items) else 0)
         == HeldUnits(k, cs, n) + if id < n then UnitsIn(k, c.items) else 0
  {
    if n > 0 {
      HeldChanged(k, cs, id, c, n - 1);
    }
  }

  // ----- elementary changes -----

  function Bare(b: Bag, s: Slot): Bag {
    b.(equipment := b.equipment - {s})
  }

  function Wearing(b: Bag, s: Slot, item: Item): Bag {
    b.(equipment := b.equipment[s := item])
  }

  function Holding(b: Bag, id: ContainerId, items: seq<Item>): Bag
    requires id in b.containers
  {
    b.(containers := b.containers[id := b.containers[id].(items := items)])
  }

  lemma BareUnits(k: Kind, b: Bag, s: Slot)
    requires s in b.equipment
    ensures BagUnits(k, b) == BagUnits(k, Bare(b, s)) + Units(k, b.equipment[s])
  {
    WornWithout(k, b.equipment, s, 11);
  }

  /** Putting an item into a slot replaces what the slot held. */
  lemma WearingUnits(k: Kind, b: Bag, s: Slot, item: Item)
    ensures BagUnits(k, Wearing(b, s, item)) + (if s in b.equipment then Units(k, b.equipment[s]) else 0)
         == BagUnits(k, b) + Units(k, item)
  {
    var after := Wearing(b, s, item);
    BareUnits(k, after, s);
    assert after.equipment - {s} == b.equipment - {s};
    if s in b.equipment {
      BareUnits(k, b, s);
    } else {
      assert b.equipment - {s} == b.equipment;
    }
  }

  lemma HoldingUnits(k: Kind, b: Bag, id: ContainerId, items: seq<Item>)
    requires id in b.containers
    ensures BagUnits(k, Holding(b, id, items)) + UnitsIn(k, b.containers[id].items) == BagUnits(k, b) + UnitsIn(k, items)
  {
    HeldChanged(k, b.containers, id, b.containers[id].(items := items), 256);
  }

  // ----- bounds -----

  predicate SoundBag(b: Bag) {
    && (forall s | s in b.equipment :: SoundItem(b.equipment[s]))
    && |b.containers| <= MAX_CONTAINERS && forall id | id in b.containers :: SoundContainer(b.containers[id])
  }

  /** Elementary changes within the bounds. */
  lemma HoldingIsSound(b: Bag, id: ContainerId, items: seq<Item>)
    requires SoundBag(b) && id in b.containers
    requires |items| <= b.containers[id].capacity && SoundItems(items)
    ensures SoundBag(Holding(b, id, items))
  {
    assert SoundContainer(b.containers[id]);
    assert b.containers.Keys + {id} == b.containers.Keys;
    assert |b.containers[id := b.containers[id].(items := items)].Keys| == |b.containers.Keys|;
  }
}
