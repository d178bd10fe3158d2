/**
 * Items, stacks and containers, and how many units of a kind they hold: what merging, splitting and
 * inserting do to that number.
 */
module Items {
  import opened Prelude

  /** An item instance; contents are counted once, whatever the count of the holder. */
  datatype Item = Item(serverId: u16, count: u16, action: Option<u16>, unique: Option<u16>, contents: seq<Item>)

  /** What has to agree for two stacks to merge. */
  datatype Kind = Kind(serverId: u16, action: Option<u16>, unique: Option<u16>)

  datatype Container = Container(capacity: u16, hasParent: bool, items: seq<Item>)

  const MAX_STACK: u16 := 100
  const MAX_CAPACITY: u16 := 100
  const MAX_CONTAINERS: nat := 16

  function KindOf(item: Item): Kind {
    Kind(item.serverId, item.action, item.unique)
  }

  // ----- counting -----

  function Own(k: Kind, item: Item): nat {
    if KindOf(item) == k then item.count else 0
  }

  function Units(k: Kind, item: Item): nat
    decreases item, 1
  {
    Own(k, item) + UnitsIn(k, item.contents)
  }

  function UnitsIn(k: Kind, items: seq<Item>): nat
    decreases items, 0
  {
    if items == [] then 0 else UnitsIn(k, items[..|items| - 1]) + Units(k, items[|items| - 1])
  }

  lemma {:induction false} UnitsInConcat(k: Kind, a: seq<Item>, b: seq<Item>)
    ensures UnitsIn(k, a + b) == UnitsIn(k, a) + UnitsIn(k, b)
    decreases |b|
  {
    if b == [] {
      assert a + b == a;
    } else {
      assert (a + b)[..|a + b| - 1] == a + b[..|b| - 1];
      UnitsInConcat(k, a, b[..|b| - 1]);
    }
  }

  lemma UnitsOfOne(k: Kind, item: Item)
    ensures UnitsIn(k, [item]) == Units(k, item)
  {
    assert [item][..0] == [];
  }

  function Without<T>(s: seq<T>, i: nat): seq<T>
    requires i < |s|
  {
    s[..i] + s[i + 1..]
  }

  function With<T>(s: seq<T>, i: nat, x: T): seq<T>
    requires i <= |s|
  {
    s[..i] + [x] + s[i..]
  }

  /** Taking an item out of a list. */
  lemma UnitsWithout(k: Kind, items: seq<Item>, i: nat)
    requires i < |items|
    ensures UnitsIn(k, items) == UnitsIn(k, Without(items, i)) + Units(k, items[i])
  {
    assert items == items[..i] + ([items[i]] + items[i + 1..]);
    UnitsInConcat(k, items[..i], [items[i]] + items[i + 1..]);
    UnitsInConcat(k, [items[i]], items[i + 1..]);
    UnitsInConcat(k, items[..i], items[i + 1..]);
    UnitsOfOne(k, items[i]);
  }

  lemma UnitsReplaced(k: Kind, items: seq<Item>, i: nat, item: Item)
    requires i < |items|
    ensures UnitsIn(k, items[i := item]) + Units(k, items[i]) == UnitsIn(k, items) + Units(k, item)
  {
    assert Without(items[i := item], i) == Without(items, i);
    UnitsWithout(k, items, i);
    UnitsWithout(k, items[i := item], i);
  }

  // ----- stacks -----

  predicate Compatible(a: Item, b: Item) {
    KindOf(a) == KindOf(b)
  }

  predicate RoomFor(existing: Item, item: Item) {
    Compatible(existing, item) && existing.count + item.count <= MAX_STACK
  }

  /** The existing stack keeps its own contents; those of the incoming one are not looked at. */
  function MergedWith(existing: Item, item: Item): Item
    requires RoomFor(existing, item)
  {
    existing.(count := existing.count + item.count)
  }

  /** The first stack that can take the item whole. */
  function FirstRoom(items: seq<Item>, item: Item, from: nat): (r: Option<nat>)
    requires from <= |items|
    ensures r.Some? ==> r.value < |items| && RoomFor(items[r.value], item)
    decreases |items| - from
  {
    if from == |items| then None
    else if RoomFor(items[from], item) then Some(from)
    else FirstRoom(items, item, from + 1)
  }

  predicate HasCompatible(items: seq<Item>, item: Item) {
    exists i :: 0 <= i < |items| && Compatible(items[i], item)
  }

  /** Merging or inserting a stack: refused if every compatible stack would overflow, or there is no slot. */
  function Stacked(c: Container, item: Item): Result<Container> {
    match FirstRoom(c.items, item, 0)
    case Some(i) => Ok(c.(items := c.items[i := MergedWith(c.items[i], item)]))
    case None =>
      if HasCompatible(c.items, item) || |c.items| >= c.capacity then Err
      else Ok(c.(items := c.items + [item]))
  }

  predicate Merges(c: Container, item: Item) {
    FirstRoom(c.items, item, 0).Some?
  }

  /** Stacking adds the item's units, except that a merge drops its contents. */
  lemma {:induction false} StackingAdds(k: Kind, c: Container, item: Item)
    requires Stacked(c, item).Ok?
    ensures UnitsIn(k, Stacked(c, item).value.items) + (if Merges(c, item) then UnitsIn(k, item.contents) else 0)
         == UnitsIn(k, c.items) + Units(k, item)
  {
    if Merges(c, item) {
      var i := FirstRoom(c.items, item, 0).value;
      UnitsReplaced(k, c.items, i, MergedWith(c.items[i], item));
    } else {
      UnitsInConcat(k, c.items, [item]);
      UnitsOfOne(k, item);
    }
  }

  method MergeOrInsert(c: Container, item: Item) returns (r: Result<Container>)
    ensures r == Stacked(c, item)
  {
    for i := 0 to |c.items|
      invariant FirstRoom(c.items, item, i) == FirstRoom(c.items, item, 0)
    {
      if RoomFor(c.items[i], item) {
        return Ok(c.(items := c.items[i := MergedWith(c.items[i], item)]));
      }
    }
    if exists i | 0 <= i < |c.items| :: Compatible(c.items[i], item) {
      return Err;
    }
    if |c.items| >= c.capacity {
      return Err;
    }
    return Ok(c.(items := c.items + [item]));
  }

  /** Taking `n` units off a stack; both halves keep the contents. */
  predicate Splittable(item: Item, n: u16) {
    0 < n <= item.count
  }

  function Part(item: Item, n: u16): Item {
    item.(count := n)
  }

  lemma SplittingCopiesContents(k: Kind, item: Item, n: u16)
    requires Splittable(item, n)
    ensures Units(k, Part(item, n)) + Units(k, Part(item, item.count - n)) == Units(k, item) + UnitsIn(k, item.contents)
  {
  }

  // ----- bounds -----

  predicate SoundItem(item: Item) {
    1 <= item.count <= MAX_STACK && item.serverId > 0 && forall x | x in item.contents :: SoundItem(x)
  }

  predicate SoundItems(items: seq<Item>) {
    forall x | x in items :: SoundItem(x)
  }

  predicate SoundContainer(c: Container) {
    1 <= c.capacity <= MAX_CAPACITY && |c.items| <= c.capacity && SoundItems(c.items)
  }

  lemma StackingIsSound(c: Container, item: Item)
    requires SoundContainer(c) && SoundItem(item) && Stacked(c, item).Ok?
    ensures SoundContainer(Stacked(c, item).value)
    ensures Stacked(c, item).value == c.(items := Stacked(c, item).value.items)
  {
    var after := Stacked(c, item).value;
    forall x | x in after.items ensures SoundItem(x) {
      if Merges(c, item) {
        var i := FirstRoom(c.items, item, 0).value;
        assert c.items[i] in c.items;
        assert x in c.items || x == MergedWith(c.items[i], item);
      }
    }
  }

  /** Contents that hold something hold something of some kind. */
  lemma ContentsCount(items: seq<Item>)
    requires items != [] && SoundItems(items)
    ensures UnitsIn(KindOf(items[|items| - 1]), items) > 0
  {
    assert items[|items| - 1] in items;
  }
}
