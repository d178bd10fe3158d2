/** What a window shows of a container, and which records an update spares. */
module WindowRecords {
  import opened Prelude
  import opened ContainerDiff

  /** A slot shows the catalogued thing, with the count, up to 255, where counts are shown. */
  predicate Shows(catalog: Catalog, item: Item, look: Look) {
    && item.serverId in catalog && look.thing == catalog[item.serverId].thing
    && look.subtype == if !catalog[item.serverId].counted then None
                       else Some(if item.count < 255 then item.count else 255)
  }

  predicate AllShown(catalog: Catalog, items: seq<Item>, slots: seq<Look>) {
    |slots| == |items| && forall i | 0 <= i < |items| :: Shows(catalog, items[i], slots[i])
  }

  lemma AllShownStep(catalog: Catalog, items: seq<Item>, slots: seq<Look>)
    requires items != [] && slots != []
    ensures AllShown(catalog, items, slots)
       <==> Shows(catalog, items[0], slots[0]) && AllShown(catalog, items[1..], slots[1..])
  {
    if Shows(catalog, items[0], slots[0]) && AllShown(catalog, items[1..], slots[1..]) {
      forall i | 0 <= i < |items| ensures Shows(catalog, items[i], slots[i]) {
        assert i > 0 ==> items[i] == items[1..][i - 1] && slots[i] == slots[1..][i - 1];
      }
    }
  }

  lemma {:induction false} LooksMean(catalog: Catalog, items: seq<Item>, slots: seq<Look>)
    ensures Looks(catalog, items) == Some(slots) <==> AllShown(catalog, items, slots)
    decreases |items|
  {
    if items != [] && slots != [] {
      LooksMean(catalog, items[1..], slots[1..]);
      AllShownStep(catalog, items, slots);
      assert slots == [slots[0]] + slots[1..];
    }
  }

  /** A window is rendered exactly if it is not nested and every item is catalogued; slot by slot it shows the items. */
  lemma WindowsShowTheirContainers(catalog: Catalog, c: Container, w: Window)
    ensures Rendered(catalog, c) == Some(w)
       <==> !c.hasParent && w.capacity == c.capacity && AllShown(catalog, c.items, w.slots)
  {
    LooksMean(catalog, c.items, w.slots);
  }

  // ----- what is not sent -----

  /** The record rewrites a slot that differs, to what is there now. */
  predicate Rewrites(f: Frame, id: WindowId, from: nat, before: seq<Look>, after: seq<Look>)
    requires |before| == |after|
  {
    f.Change? && f.id == id && from <= f.slot < from + |before|
    && before[f.slot - from] != after[f.slot - from] && f.item == after[f.slot - from]
  }

  lemma {:induction false} ChangesWhereDifferent(id: WindowId, from: nat, before: seq<Look>, after: seq<Look>)
    requires |before| == |after| && from + |before| <= 256
    ensures forall f :: f in Changes(id, from, before, after) <==> Rewrites(f, id, from, before, after)
    decreases |before|
  {
    if before != [] {
      var n := |before| - 1;
      ChangesWhereDifferent(id, from, before[..n], after[..n]);
      forall f ensures f in Changes(id, from, before, after) <==> Rewrites(f, id, from, before, after) {
        assert Rewrites(f, id, from, before, after) <==>
          || Rewrites(f, id, from, before[..n], after[..n])
          || (f == Change(id, from + n, after[n]) && before[n] != after[n]);
      }
    }
  }

  lemma RewritesInTheMiddle(f: Frame, id: WindowId, front: seq<Look>, before: seq<Look>, after: seq<Look>, back: seq<Look>)
    requires |before| == |after|
    ensures Rewrites(f, id, |front|, before, after)
       <==> Rewrites(f, id, 0, front + before + back, front + after + back)
  {
  }

  /** Between slot lists of one length, exactly the slots that differ are rewritten. */
  lemma OnlyDifferencesAreSent(id: WindowId, was: seq<Look>, now: seq<Look>)
    requires |was| == |now| <= 255
    ensures var fs := SlotFrames(id, SplitOf(was, now));
      fs.Some? && forall f :: f in fs.value <==> Rewrites(f, id, 0, was, now)
  {
    var s := SplitOf(was, now);
    SplitIsGood(was, now);
    ChangesWhereDifferent(id, |s.front|, s.before, s.after);
    forall f ensures Rewrites(f, id, |s.front|, s.before, s.after) <==> Rewrites(f, id, 0, was, now) {
      RewritesInTheMiddle(f, id, s.front, s.before, s.after, s.back);
    }
    assert s.before == [] ==> SlotFrames(id, s) == Some([]);
  }

  /**
   * The full record is sent at first sight, for a new capacity, and where slots both come and go in
   * different numbers; everything else is told slot by slot, and an unchanged window not at all.
   */
  lemma FullRecordsAreRare(id: WindowId, was: Window, catalog: Catalog, c: Container)
    requires |was.slots| <= 255 && Bounded(c) && Rendered(catalog, c).Some?
    ensures var now := Rendered(catalog, c).value;
      && (was == now ==> FramesFor(id, Some(Some(was)), catalog, c) == [])
      && FramesFor(id, None, catalog, c) == OpenFrames(id, catalog, c)
      && FramesFor(id, Some(None), catalog, c) == []
      && OpenFrames(id, catalog, c) == (if c.item.serverId in catalog then [Open(id, now.capacity, now.slots)] else [])
      && (was.capacity != now.capacity ==> FramesFor(id, Some(Some(was)), catalog, c) == OpenFrames(id, catalog, c))
      && (was.capacity == now.capacity && ToldBySlots(SplitOf(was.slots, now.slots)) ==>
            NoOpens(FramesFor(id, Some(Some(was)), catalog, c)))
      && (was.capacity == now.capacity && !ToldBySlots(SplitOf(was.slots, now.slots)) ==>
            FramesFor(id, Some(Some(was)), catalog, c) == OpenFrames(id, catalog, c))
  {
    var now := Rendered(catalog, c).value;
    var s := SplitOf(was.slots, now.slots);
    if SlotFrames(id, s).Some? {
      SlotFramesAreFor(id, s);
    }
    if was == now {
      NoDifferenceNoRecord(id, was.slots);
    }
  }

  lemma NoDifferenceNoRecord(id: WindowId, slots: seq<Look>)
    requires |slots| <= 255
    ensures SlotFrames(id, SplitOf(slots, slots)) == Some([])
  {
    FrontIsLongest(slots, slots, 0);
    assert Front(slots, slots, 0) == |slots|;
  }

  /** Slots only go, only come, or as many come as go. */
  predicate ToldBySlots(s: Split) {
    s.before == [] || s.after == [] || |s.before| == |s.after|
  }
}
