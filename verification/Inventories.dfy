/**
 * The inventories of all players, changed in place by the transfer calls. Each call edits copies of the
 * player's equipment and containers and writes them back at the end.
 */
module Inventories {
  import opened Prelude
  import opened Items
  import opened Bags
  import opened Transfers
  import opened Placement

  type Equipments = map<PlayerId, Equipment>
  type Holdings = map<PlayerId, Containers>

  /** Putting a container back: refused if the player has too many. */
  function Stowed(cs: Containers, id: ContainerId, c: Container): Result<Containers> {
    if id !in cs && |cs| >= MAX_CONTAINERS then Err else Ok(cs[id := c])
  }

  lemma TakenOutFitsBack(cs: Containers, id: ContainerId, c: Container)
    requires |cs| <= MAX_CONTAINERS && id in cs
    ensures Stowed(cs - {id}, id, c) == Ok(cs[id := c])
  {
    assert (cs - {id}).Keys == cs.Keys - {id};
    assert |(cs - {id}).Keys| == |cs.Keys| - 1;
    assert (cs - {id})[id := c] == cs[id := c];
  }

  lemma BothFitBack(cs: Containers, a: ContainerId, b: ContainerId, c: Container, d: Container)
    requires |cs| <= MAX_CONTAINERS && a in cs && b in cs && a != b
    ensures Stowed(cs - {a} - {b}, a, c).Ok?
    ensures Stowed(Stowed(cs - {a} - {b}, a, c).value, b, d) == Ok(cs[a := c][b := d])
  {
    var rest := cs - {a} - {b};
    assert rest.Keys == cs.Keys - {a} - {b};
    assert |rest.Keys| == |cs.Keys| - 2;
    assert rest[a := c].Keys == rest.Keys + {a};
    assert rest[a := c][b := d] == cs[a := c][b := d];
  }

  /** A container with part of one stack gone. */
  function LessStack(c: Container, index: nat, n: u16): Container
    requires index < |c.items| && Splittable(c.items[index], n)
  {
    var item := c.items[index];
    c.(items := if n < item.count then c.items[index := Part(item, item.count - n)] else Without(c.items, index))
  }

  // ----- staging a transfer on copies of one player's maps -----

  /** A whole item from a slot to the end of a container. */
  method StageEquipmentToContainer(b: Bag, slot: Slot, id: ContainerId) returns (s: Step)
    requires SoundBag(b)
    ensures s == Performed(b, EquipmentToContainer(slot, id))
  {
    var equipment: Equipment, held: Containers := b.equipment, b.containers;
    if slot !in equipment || id !in held {
      return Step(b, false, []);
    }
    var item, c := equipment[slot], held[id];
    equipment, held := equipment - {slot}, held - {id};
    if |c.items| >= c.capacity {
      return Step(b, false, []);
    }
    c := c.(items := c.items + [item]);
    TakenOutFitsBack(b.containers, id, c);
    var stowed := Stowed(held, id, c);
    if stowed.Err? {
      return Step(b, false, []);
    }
    return Step(Bag(equipment, stowed.value), true, []);
  }

  /** A whole item from a container to an empty slot. */
  method StageContainerToEquipment(b: Bag, id: ContainerId, index: nat, slot: Slot) returns (s: Step)
    requires SoundBag(b)
    ensures s == Performed(b, ContainerToEquipment(id, index, slot))
  {
    var equipment: Equipment, held: Containers := b.equipment, b.containers;
    if slot in equipment || id !in held {
      return Step(b, false, []);
    }
    var c := held[id];
    held := held - {id};
    if index >= |c.items| {
      return Step(b, false, []);
    }
    var item := c.items[index];
    c := c.(items := Without(c.items, index));
    equipment := equipment[slot := item];
    TakenOutFitsBack(b.containers, id, c);
    var stowed := Stowed(held, id, c);
    if stowed.Err? {
      return Step(b, false, []);
    }
    return Step(Bag(equipment, stowed.value), true, []);
  }

  /** A content item of a container item to an empty slot. */
  method StageContentToEquipment(b: Bag, id: ContainerId, index: nat, content: nat, slot: Slot) returns (s: Step)
    requires SoundBag(b)
    ensures s == Performed(b, ContentToEquipment(id, index, content, slot))
  {
    var equipment: Equipment, held: Containers := b.equipment, b.containers;
    if slot in equipment || id !in held {
      return Step(b, false, []);
    }
    var c := held[id];
    held := held - {id};
    if index >= |c.items| || content >= |c.items[index].contents| {
      return Step(b, false, []);
    }
    var holder := c.items[index];
    var item := holder.contents[content];
    c := c.(items := c.items[index := holder.(contents := Without(holder.contents, content))]);
    equipment := equipment[slot := item];
    TakenOutFitsBack(b.containers, id, c);
    var stowed := Stowed(held, id, c);
    if stowed.Err? {
      return Step(b, false, []);
    }
    return Step(Bag(equipment, stowed.value), true, []);
  }

  /** Uses up one worn unit, if there is one. */
  method StageConsumeWorn(b: Bag, slot: Slot) returns (s: Step)
    requires SoundBag(b)
    ensures s == Performed(b, ConsumeWorn(slot))
  {
    var equipment: Equipment, held: Containers := b.equipment, b.containers;
    if slot !in equipment {
      return Step(b, true, []);
    }
    var item := equipment[slot];
    equipment := if item.count > 1 then equipment[slot := Part(item, item.count - 1)] else equipment - {slot};
    return Step(Bag(equipment, held), true, []);
  }

  /** Uses up one unit in a container, if there is one. */
  method StageConsumeHeld(b: Bag, id: ContainerId, index: nat) returns (s: Step)
    requires SoundBag(b)
    ensures s == Performed(b, ConsumeHeld(id, index))
  {
    var equipment: Equipment, held: Containers := b.equipment, b.containers;
    if id !in held {
      return Step(b, false, []);
    }
    var c := held[id];
    held := held - {id};
    if index >= |c.items| {
      return Step(b, true, []);
    }
    var item := c.items[index];
    c := c.(items := if item.count > 1 then c.items[index := Part(item, item.count - 1)] else Without(c.items, index));
    TakenOutFitsBack(b.containers, id, c);
    var stowed := Stowed(held, id, c);
    if stowed.Err? {
      return Step(b, false, []);
    }
    return Step(Bag(equipment, stowed.value), true, []);
  }

  /** Exchanges a container item with a worn one. */
  method StageSwapWithEquipment(b: Bag, id: ContainerId, index: nat, slot: Slot) returns (s: Step)
    requires SoundBag(b)
    ensures s == Performed(b, SwapWithEquipment(id, index, slot))
  {
    var equipment: Equipment, held: Containers := b.equipment, b.containers;
    if slot !in equipment || id !in held {
      return Step(b, false, []);
    }
    var worn, c := equipment[slot], held[id];
    equipment, held := equipment - {slot}, held - {id};
    if index >= |c.items| {
      return Step(b, false, []);
    }
    var item := c.items[index];
    equipment := equipment[slot := item];
    c := c.(items := With(Without(c.items, index), index, worn));
    assert c.items == b.containers[id].items[index := worn];
    TakenOutFitsBack(b.containers, id, c);
    var stowed := Stowed(held, id, c);
    if stowed.Err? {
      return Step(b, false, []);
    }
    assert equipment == b.equipment[slot := item];
    return Step(Bag(equipment, stowed.value), true, []);
  }

  /** Exchanges two worn items. */
  method StageSwapEquipment(b: Bag, slot: Slot, other: Slot) returns (s: Step)
    requires SoundBag(b)
    ensures s == Performed(b, SwapEquipment(slot, other))
  {
    var equipment: Equipment, held: Containers := b.equipment, b.containers;
    if slot == other || slot !in equipment || other !in equipment {
      return Step(b, false, []);
    }
    var first, second := equipment[slot], equipment[other];
    equipment := equipment - {slot} - {other};
    equipment := equipment[slot := second];
    equipment := equipment[other := first];
    assert equipment == b.equipment[slot := second][other := first];
    return Step(Bag(equipment, held), true, []);
  }

  /** Part of a worn stack into a container. */
  method StageWornStack(b: Bag, slot: Slot, id: ContainerId, count: u16) returns (s: Step)
    requires SoundBag(b)
    ensures s == Performed(b, WornStackToContainer(slot, id, count))
  {
    var equipment: Equipment, held: Containers := b.equipment, b.containers;
    if slot !in equipment || !Splittable(equipment[slot], count) {
      return Step(b, false, []);
    }
    var item := equipment[slot];
    equipment := equipment - {slot};
    if count < item.count {
      equipment := equipment[slot := Part(item, item.count - count)];
    }
    assert equipment == LessWorn(b, slot, count).equipment;
    if id !in held {
      return Step(b, false, []);
    }
    var c := held[id];
    held := held - {id};
    var merged := MergeOrInsert(c, Part(item, count));
    if merged.Err? {
      return Step(b, false, []);
    }
    TakenOutFitsBack(b.containers, id, merged.value);
    var stowed := Stowed(held, id, merged.value);
    if stowed.Err? {
      return Step(b, false, []);
    }
    return Step(Bag(equipment, stowed.value), true, []);
  }

  /** Part of a container stack onto a slot. */
  method StageHeldStackToEquipment(b: Bag, id: ContainerId, index: nat, slot: Slot, count: u16) returns (s: Step)
    requires SoundBag(b)
    ensures s == Performed(b, HeldStackToEquipment(id, index, slot, count))
  {
    var equipment: Equipment, held: Containers := b.equipment, b.containers;
    if id !in held {
      return Step(b, false, []);
    }
    var c := held[id];
    held := held - {id};
    if index >= |c.items| || !Splittable(c.items[index], count) {
      return Step(b, false, []);
    }
    var item := c.items[index];
    var moved := Part(item, count);
    if slot in equipment {
      if !RoomFor(equipment[slot], moved) {
        return Step(b, false, []);
      }
      equipment := equipment[slot := MergedWith(equipment[slot], moved)];
    } else {
      equipment := equipment[slot := moved];
    }
    c := LessStack(c, index, count);
    TakenOutFitsBack(b.containers, id, c);
    var stowed := Stowed(held, id, c);
    if stowed.Err? {
      return Step(b, false, []);
    }
    return Step(Bag(equipment, stowed.value), true, []);
  }

  /** Part of a container stack into another container. */
  method StageHeldStack(b: Bag, id: ContainerId, index: nat, target: ContainerId, count: u16) returns (s: Step)
    requires SoundBag(b)
    ensures s == Performed(b, HeldStackToContainer(id, index, target, count))
  {
    var equipment: Equipment, held: Containers := b.equipment, b.containers;
    if id == target || id !in held || target !in held {
      return Step(b, false, []);
    }
    var c, d := held[id], held[target];
    held := held - {id} - {target};
    if index >= |c.items| || !Splittable(c.items[index], count) {
      return Step(b, false, []);
    }
    var moved := Part(c.items[index], count);
    var merged := MergeOrInsert(d, moved);
    if merged.Err? {
      return Step(b, false, []);
    }
    c := LessStack(c, index, count);
    BothFitBack(b.containers, id, target, c, merged.value);
    var first := Stowed(held, id, c);
    if first.Err? {
      return Step(b, false, []);
    }
    var second := Stowed(first.value, target, merged.value);
    if second.Err? {
      return Step(b, false, []);
    }
    return Step(Bag(equipment, second.value), true, []);
  }

  /** A content item into another container. If that container is nested, the call fails but writes. */
  method StageContentToContainer(b: Bag, id: ContainerId, index: nat, content: nat, target: ContainerId) returns (s: Step)
    requires SoundBag(b)
    ensures s == Performed(b, ContentToContainer(id, index, content, target))
  {
    var equipment: Equipment, held: Containers := b.equipment, b.containers;
    if id !in held {
      return Step(b, false, []);
    }
    var c := held[id];
    held := held - {id};
    if index >= |c.items| || content >= |c.items[index].contents| {
      return Step(b, false, []);
    }
    var holder := c.items[index];
    var item := holder.contents[content];
    c := c.(items := c.items[index := holder.(contents := Without(holder.contents, content))]);
    TakenOutFitsBack(b.containers, id, c);
    var stowed := Stowed(held, id, c);
    if stowed.Err? {
      return Step(b, false, []);
    }
    held := stowed.value;
    assert held == LessInside(b, id, index, content).containers;
    if target !in held {
      return Step(b, false, []);
    }
    var d := held[target];
    if d.hasParent {
      return Step(Bag(equipment, held), false, []);
    }
    var merged := MergeOrInsert(d, item);
    if merged.Err? {
      return Step(b, false, []);
    }
    return Step(Bag(equipment, held[target := merged.value]), true, []);
  }

  /** Takes a stack out of the inventory for the ground. */
  method StageDrop(b: Bag, source: Source, count: u16) returns (s: Step)
    requires SoundBag(b)
    ensures s == Performed(b, Drop(source, count))
  {
    var equipment: Equipment, held: Containers := b.equipment, b.containers;
    match source
    case Worn(slot) =>
      if slot !in equipment || !Splittable(equipment[slot], count) {
        return Step(b, false, []);
      }
      var item := equipment[slot];
      equipment := if count < item.count then equipment[slot := Part(item, item.count - count)] else equipment - {slot};
      return Step(Bag(equipment, held), true, [Part(item, count)]);
    case Held(id, index) =>
      if id !in held || index >= |held[id].items| || !Splittable(held[id].items[index], count) {
        return Step(b, false, []);
      }
      var item := held[id].items[index];
      return Step(Bag(equipment, held[id := LessStack(held[id], index, count)]), true, [Part(item, count)]);
    case Inside(id, index, content) =>
      if id !in held || index >= |held[id].items| || content >= |held[id].items[index].contents|
         || !Splittable(held[id].items[index].contents[content], count) {
        return Step(b, false, []);
      }
      var c := held[id];
      var holder := c.items[index];
      c := c.(items := c.items[index := holder.(contents := Without(holder.contents, content))]);
      return Step(Bag(equipment, held[id := c]), true, [Part(holder.contents[content], count)]);
  }

  // ----- the book -----

  method Stage(b: Bag, t: Transfer) returns (s: Step)
    requires SoundBag(b)
    ensures s == Performed(b, t)
  {
    match t
    case EquipmentToContainer(slot, id) => s := StageEquipmentToContainer(b, slot, id);
    case ContainerToEquipment(id, index, slot) => s := StageContainerToEquipment(b, id, index, slot);
    case ContentToEquipment(id, index, content, slot) => s := StageContentToEquipment(b, id, index, content, slot);
    case ConsumeWorn(slot) => s := StageConsumeWorn(b, slot);
    case ConsumeHeld(id, index) => s := StageConsumeHeld(b, id, index);
    case ContentToContainer(id, index, content, target) => s := StageContentToContainer(b, id, index, content, target);
    case SwapWithEquipment(id, index, slot) => s := StageSwapWithEquipment(b, id, index, slot);
    case SwapEquipment(slot, other) => s := StageSwapEquipment(b, slot, other);
    case WornStackToContainer(slot, id, count) => s := StageWornStack(b, slot, id, count);
    case HeldStackToEquipment(id, index, slot, count) => s := StageHeldStackToEquipment(b, id, index, slot, count);
    case HeldStackToContainer(id, index, target, count) => s := StageHeldStack(b, id, index, target, count);
    case Drop(source, count) => s := StageDrop(b, source, count);
  }

  /** The inventories of all players online. */
  class Book {
    var equipments: Equipments
    var containers: Holdings

    ghost predicate Valid()
      reads this
    {
      && equipments.Keys == containers.Keys
      && forall p | p in equipments :: SoundBag(Bag(equipments[p], containers[p]))
    }

    constructor ()
      ensures Valid() && equipments == map[] && containers == map[]
    {
      equipments, containers := map[], map[];
    }

    /** Stages a transfer on copies of one player's inventory and writes it back. */
    method Perform(p: PlayerId, t: Transfer) returns (ok: bool, out: seq<Item>)
      requires Valid()
      modifies this
      ensures Valid()
      ensures p !in old(equipments) ==> !ok && out == [] && unchanged(this)
      ensures p in old(equipments) ==>
        var step := Performed(Bag(old(equipments)[p], old(containers)[p]), t);
        && ok == step.ok && out == step.out
        && equipments == old(equipments)[p := step.bag.equipment] && containers == old(containers)[p := step.bag.containers]
      ensures p in old(equipments) ==>
        p in equipments && p in containers
        && Settles(Bag(old(equipments)[p], old(containers)[p]), t, Bag(equipments[p], containers[p]), ok, out)
    {
      if p !in equipments {
        return false, [];
      }
      var b := Bag(equipments[p], containers[p]);
      MovesKeepBounds(b, t);
      TransfersPlaceEverything(b, t);
      var step := Stage(b, t);
      equipments := equipments[p := step.bag.equipment];
      containers := containers[p := step.bag.containers];
      return step.ok, step.out;
    }
  }
}
