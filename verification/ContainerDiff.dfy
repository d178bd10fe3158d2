module ContainerDiff {
  // Keeping a client's container windows up to date with slot deltas, and what replaying those deltas gives.
  // The client model is the one the delta layer assumes: a create appends, a delete removes the slot and
  // shifts the rest, a change rewrites a slot, an open replaces the window.
  import opened Prelude

  type WindowId = u8

  /** One item as the client sees it. */
  datatype Look = Look(thing: u16, subtype: Option<u8>)

  datatype Window = Window(capacity: u8, slots: seq<Look>)

  datatype Frame =
    | Open(id: WindowId, capacity: u8, slots: seq<Look>)
    | Create(id: WindowId, item: Look)
    | Change(id: WindowId, slot: u8, item: Look)
    | Delete(id: WindowId, slot: u8)

  // ----- the client -----

  type Client = map<WindowId, Window>

  /** What a slot record does to the slots of its window; records for missing slots are ignored. */
  function Edit(slots: seq<Look>, f: Frame): seq<Look> {
    match f
    case Open(_, _, now) => now
    case Create(_, item) => slots + [item]
    case Change(_, slot, item) => if slot < |slots| then slots[slot := item] else slots
    case Delete(_, slot) => if slot < |slots| then slots[..slot] + slots[slot + 1..] else slots
  }

  function Receive(client: Client, f: Frame): Client {
    if f.Open? then client[f.id := Window(f.capacity, f.slots)]
    else if f.id in client then client[f.id := client[f.id].(slots := Edit(client[f.id].slots, f))]
    else client
  }

  function Replay(client: Client, fs: seq<Frame>): Client {
    if fs == [] then client else Receive(Replay(client, fs[..|fs| - 1]), fs[|fs| - 1])
  }

  function Edits(slots: seq<Look>, fs: seq<Frame>): seq<Look> {
    if fs == [] then slots else Edit(Edits(slots, fs[..|fs| - 1]), fs[|fs| - 1])
  }

  // ----- rendering -----

  datatype Presentation = Presentation(thing: u16, counted: bool)
  type Catalog = map<u16, Presentation>

  datatype Item = Item(serverId: u16, count: u16)

  /** An owned container, within the bounds its constructor enforces. */
  datatype Container = Container(item: Item, hasParent: bool, capacity: u8, items: seq<Item>)

  predicate Bounded(c: Container) {
    |c.items| <= c.capacity <= 100
  }

  function LookOf(catalog: Catalog, item: Item): Option<Look> {
    if item.serverId !in catalog then None
    else
      var p := catalog[item.serverId];
      Some(Look(p.thing, if p.counted then Some(Min(item.count, 255)) else None))
  }

  function Looks(catalog: Catalog, items: seq<Item>): (r: Option<seq<Look>>)
    ensures r.Some? ==> |r.value| == |items|
    ensures r.Some? <==> forall i | 0 <= i < |items| :: items[i].serverId in catalog
  {
    if items == [] then Some([])
    else
      match (LookOf(catalog, items[0]), Looks(catalog, items[1..]))
      case (Some(look), Some(rest)) => Some([look] + rest)
      case _ =>
        assert forall i | 0 < i < |items| :: items[i] == items[1..][i - 1];
        None
  }

  /** A nested window, or one with an unmapped item, is not rendered at all. */
  function Rendered(catalog: Catalog, c: Container): (r: Option<Window>)
    ensures r.Some? ==> |r.value.slots| == |c.items|
  {
    if c.hasParent then None
    else
      match Looks(catalog, c.items)
      case None => None
      case Some(slots) => Some(Window(c.capacity, slots))
  }

  /** The full record; the container's own item has to be mapped as well. */
  function OpenFrames(id: WindowId, catalog: Catalog, c: Container): seq<Frame> {
    if Rendered(catalog, c).Some? && c.item.serverId in catalog
    then [Open(id, c.capacity, Rendered(catalog, c).value.slots)] else []
  }

  // ----- the slot delta of one window -----

  /** Length of the longest common front, at least `i`. */
  function Front(a: seq<Look>, b: seq<Look>, i: nat): (k: nat)
    requires i <= |a| && i <= |b|
    ensures i <= k <= |a| && k <= |b|
    decreases |a| - i
  {
    if i < |a| && i < |b| && a[i] == b[i] then Front(a, b, i + 1) else i
  }

  /** Length of the longest common back that leaves the first `k` slots alone, at least `n`. */
  function Back(a: seq<Look>, b: seq<Look>, k: nat, n: nat): (m: nat)
    requires k + n <= |a| && k + n <= |b|
    ensures n <= m && k + m <= |a| && k + m <= |b|
    decreases |a| - n
  {
    if k + n < |a| && k + n < |b| && a[|a| - n - 1] == b[|b| - n - 1] then Back(a, b, k, n + 1) else n
  }

  predicate SameFront(a: seq<Look>, b: seq<Look>, k: nat)
    requires k <= |a| && k <= |b|
  {
    forall i | 0 <= i < k :: a[i] == b[i]
  }

  predicate SameBack(a: seq<Look>, b: seq<Look>, n: nat)
    requires n <= |a| && n <= |b|
  {
    forall i | |a| - n <= i < |a| :: a[i] == b[i + |b| - |a|]
  }

  lemma {:induction false} FrontIsLongest(a: seq<Look>, b: seq<Look>, i: nat)
    requires i <= |a| && i <= |b| && SameFront(a, b, i)
    ensures var k := Front(a, b, i); SameFront(a, b, k) && (k < |a| && k < |b| ==> a[k] != b[k])
    decreases |a| - i
  {
    if i < |a| && i < |b| && a[i] == b[i] {
      FrontIsLongest(a, b, i + 1);
    }
  }

  lemma {:induction false} BackIsLongest(a: seq<Look>, b: seq<Look>, k: nat, n: nat)
    requires k + n <= |a| && k + n <= |b| && SameBack(a, b, n)
    ensures var m := Back(a, b, k, n);
      SameBack(a, b, m) && (k + m < |a| && k + m < |b| ==> a[|a| - m - 1] != b[|b| - m - 1])
    decreases |a| - n
  {
    if k + n < |a| && k + n < |b| && a[|a| - n - 1] == b[|b| - n - 1] {
      BackIsLongest(a, b, k, n + 1);
    }
  }

  /** How two slot lists differ: a shared front, a shared back, and the two middles. */
  datatype Split = Split(front: seq<Look>, before: seq<Look>, after: seq<Look>, back: seq<Look>)

  /** The split at given lengths of the shared front and back. */
  function SplitAt(prev: seq<Look>, cur: seq<Look>, k: nat, n: nat): Split
    requires k + n <= |prev| && k + n <= |cur|
  {
    Split(prev[..k], prev[k..|prev| - n], cur[k..|cur| - n], prev[|prev| - n..])
  }

  /** The longest shared front, then the longest shared back of what remains. */
  function SplitOf(prev: seq<Look>, cur: seq<Look>): (s: Split)
    ensures |s.front| + |s.before| + |s.back| == |prev| && |s.front| + |s.after| + |s.back| == |cur|
  {
    var k := Front(prev, cur, 0);
    SplitAt(prev, cur, k, Back(prev, cur, k, 0))
  }

  function OldSlots(s: Split): seq<Look> {
    s.front + s.before + s.back
  }

  function NewSlots(s: Split): seq<Look> {
    s.front + s.after + s.back
  }

  /** With nothing taken out, what is put in differs from what it is put before. */
  predicate Apart(s: Split) {
    s.before == [] && s.after != [] && s.back != [] ==> s.back[0] != s.after[0]
  }

  lemma SplitIsGood(prev: seq<Look>, cur: seq<Look>)
    ensures var s := SplitOf(prev, cur);
      prev == OldSlots(s) && cur == NewSlots(s) && Apart(s)
  {
    var k := Front(prev, cur, 0);
    var n := Back(prev, cur, k, 0);
    FrontIsLongest(prev, cur, 0);
    BackIsLongest(prev, cur, k, 0);
    assert prev[..k] == cur[..k];
    SameTail(prev, cur, n);
    ThreeParts(prev, k, |prev| - n);
    ThreeParts(cur, k, |cur| - n);
    HeadsDiffer(prev, cur, k, n);
  }

  lemma HeadsDiffer(prev: seq<Look>, cur: seq<Look>, k: nat, n: nat)
    requires k + n <= |prev| && k + n <= |cur|
    requires k < |prev| && k < |cur| ==> prev[k] != cur[k]
    ensures Apart(SplitAt(prev, cur, k, n))
  {
  }

  lemma SameTail(a: seq<Look>, b: seq<Look>, n: nat)
    requires n <= |a| && n <= |b| && SameBack(a, b, n)
    ensures a[|a| - n..] == b[|b| - n..]
  {
    var x, y := a[|a| - n..], b[|b| - n..];
    forall i | 0 <= i < n ensures x[i] == y[i] {
      assert a[i + |a| - n] == b[i + |a| - n + |b| - |a|];
    }
  }

  lemma ThreeParts(s: seq<Look>, i: nat, j: nat)
    requires i <= j <= |s|
    ensures s == s[..i] + s[i..j] + s[j..]
  {
  }

  /** Descending, so that the client's own shifting never moves a slot still to be deleted. */
  function Deletes(id: WindowId, from: nat, end: nat): seq<Frame>
    requires from <= end <= 256
  {
    if from == end then [] else [Delete(id, end - 1)] + Deletes(id, from, end - 1)
  }

  function Creates(id: WindowId, items: seq<Look>): seq<Frame> {
    if items == [] then [] else Creates(id, items[..|items| - 1]) + [Create(id, items[|items| - 1])]
  }

  function Changes(id: WindowId, from: nat, before: seq<Look>, after: seq<Look>): seq<Frame>
    requires |before| == |after| && from + |before| <= 256
  {
    if before == [] then []
    else
      var n := |before| - 1;
      Changes(id, from, before[..n], after[..n]) + if before[n] != after[n] then [Change(id, from + n, after[n])] else []
  }

  /** The records for one window, or None if only a full resend can express the difference. */
  function SlotFrames(id: WindowId, s: Split): Option<seq<Frame>>
    requires |s.front| + |s.before| <= 255
  {
    if s.after == [] then Some(Deletes(id, |s.front|, |s.front| + |s.before|))
    else if s.before == [] then Some(Creates(id, s.after))
    else if |s.before| == |s.after| then Some(Changes(id, |s.front|, s.before, s.after))
    else None
  }

  // ----- replaying a slot delta -----

  lemma {:induction false} EditsConcat(slots: seq<Look>, fs: seq<Frame>, gs: seq<Frame>)
    ensures Edits(slots, fs + gs) == Edits(Edits(slots, fs), gs)
    decreases |gs|
  {
    if gs == [] {
      assert fs + gs == fs;
    } else {
      assert (fs + gs)[..|fs + gs| - 1] == fs + gs[..|gs| - 1];
      EditsConcat(slots, fs, gs[..|gs| - 1]);
    }
  }

  lemma {:induction false} ReplayDeletes(id: WindowId, front: seq<Look>, middle: seq<Look>, back: seq<Look>)
    requires |front| + |middle| <= 256
    ensures Edits(front + middle + back, Deletes(id, |front|, |front| + |middle|)) == front + back
    decreases |middle|
  {
    if middle == [] {
      assert front + middle + back == front + back;
    } else {
      var n := |front| + |middle| - 1;
      var slots, shorter := front + middle + back, middle[..|middle| - 1];
      var first := [Delete(id, n)];
      EditsConcat(slots, first, Deletes(id, |front|, n));
      assert first[..0] == [] && Edits(slots, first) == Edit(slots, first[0]);
      assert slots[..n] + slots[n + 1..] == front + shorter + back;
      ReplayDeletes(id, front, shorter, back);
    }
  }

  lemma {:induction false} ReplayCreates(id: WindowId, slots: seq<Look>, items: seq<Look>)
    ensures Edits(slots, Creates(id, items)) == slots + items
  {
    if items == [] {
      assert slots + items == slots;
    } else {
      var n := |items| - 1;
      var fs := Creates(id, items);
      assert fs[..|fs| - 1] == Creates(id, items[..n]);
      ReplayCreates(id, slots, items[..n]);
      assert slots + items == slots + items[..n] + [items[n]];
    }
  }

  lemma {:induction false} ReplayChanges(id: WindowId, front: seq<Look>, before: seq<Look>, after: seq<Look>, back: seq<Look>)
    requires |before| == |after| && |front| + |before| <= 256
    ensures Edits(front + before + back, Changes(id, |front|, before, after)) == front + after + back
    decreases |before|
  {
    if before == [] {
      assert front + before + back == front + after + back;
    } else {
      var n := |before| - 1;
      var fs, earlier := Changes(id, |front|, before, after), Changes(id, |front|, before[..n], after[..n]);
      var later := [before[n]] + back;
      assert front + before + back == front + before[..n] + later;
      ReplayChanges(id, front, before[..n], after[..n], later);
      var slots := front + after[..n] + later;
      assert slots[|front| + n] == before[n];
      assert slots[|front| + n := after[n]] == front + after + back;
      if before[n] != after[n] {
        assert fs[..|fs| - 1] == earlier;
      } else {
        assert fs == earlier && slots == front + after + back;
      }
    }
  }

  /** A block put in before a nonempty part of the window that stays. */
  predicate InsertedBefore(s: Split) {
    s.before == [] && s.after != [] && s.back != []
  }

  /** The same condition without the split: the new list is the old one with a block before its tail. */
  lemma {:induction false} InsertedBeforeMeans(prev: seq<Look>, cur: seq<Look>)
    ensures InsertedBefore(SplitOf(prev, cur)) <==>
      var k := Front(prev, cur, 0);
      k < |prev| < |cur| && SameBack(prev, cur, |prev| - k)
  {
    var k := Front(prev, cur, 0);
    BackIsLongest(prev, cur, k, 0);
  }

  /**
   * Replaying the slot records on the old slots gives the new ones, except that a block inserted
   * before a shared tail ends up behind it.
   */
  lemma DeltaReplays(id: WindowId, s: Split)
    requires |s.front| + |s.before| <= 255 && Apart(s)
    requires SlotFrames(id, s).Some?
    ensures Edits(OldSlots(s), SlotFrames(id, s).value) == NewSlots(s) <==> !InsertedBefore(s)
    ensures InsertedBefore(s) ==> Edits(OldSlots(s), SlotFrames(id, s).value) == OldSlots(s) + s.after
  {
    if s.after == [] {
      ReplayDeletes(id, s.front, s.before, s.back);
      assert NewSlots(s) == s.front + s.back;
    } else if s.before == [] {
      ReplayCreates(id, OldSlots(s), s.after);
      AppendedInstead(s);
    } else {
      ReplayChanges(id, s.front, s.before, s.after, s.back);
    }
  }

  lemma AppendedInstead(s: Split)
    requires s.before == [] && s.after != [] && Apart(s)
    ensures OldSlots(s) + s.after == NewSlots(s) <==> s.back == []
  {
    var was, now := OldSlots(s) + s.after, NewSlots(s);
    if s.back != [] {
      assert was[|s.front|] == s.back[0];
      assert now[|s.front|] == s.after[0];
    } else {
      assert was == now;
    }
  }

  const FRONT_LOOK := Look(1, None)
  const BACK_LOOK := Look(2, None)

  /** A window with one item, to which another is added in front: the client shows the two the wrong way round. */
  lemma InsertedInFrontIsShownBehind(id: WindowId)
    ensures SplitOf([BACK_LOOK], [FRONT_LOOK, BACK_LOOK]) == Split([], [], [FRONT_LOOK], [BACK_LOOK])
    ensures var fs := SlotFrames(id, SplitOf([BACK_LOOK], [FRONT_LOOK, BACK_LOOK]));
      fs.Some? && Edits([BACK_LOOK], fs.value) == [BACK_LOOK, FRONT_LOOK]
  {
    var prev, cur := [BACK_LOOK], [FRONT_LOOK, BACK_LOOK];
    assert Front(prev, cur, 0) == 0 && Back(prev, cur, 0, 0) == 1;
    assert cur[0..1] == [FRONT_LOOK] && prev[0..0] == [];
    var s := SplitOf(prev, cur);
    assert s == Split([], [], [FRONT_LOOK], [BACK_LOOK]);
    DeltaReplays(id, s);
    assert OldSlots(s) == prev;
  }

  // ----- all windows of a session -----

  type Baseline = map<WindowId, Option<Window>>

  function CurrentWindows(catalog: Catalog, containers: map<WindowId, Container>, closed: set<WindowId>): Baseline {
    map id | id in containers && id !in closed :: Rendered(catalog, containers[id])
  }

  /** What was last sent for a window, if it is known at all. */
  function Known(sent: Baseline, id: WindowId): Option<Option<Window>> {
    if id in sent then Some(sent[id]) else None
  }

  predicate Small(was: Option<Option<Window>>) {
    was.Some? && was.value.Some? ==> |was.value.value.slots| <= 255
  }

  predicate SmallBaseline(sent: Baseline) {
    forall id | id in sent :: Small(Known(sent, id))
  }

  /** The records sent for one window, given what was sent before. */
  function FramesFor(id: WindowId, was: Option<Option<Window>>, catalog: Catalog, c: Container): seq<Frame>
    requires Small(was) && Bounded(c)
  {
    var now := Rendered(catalog, c);
    if was.None? then OpenFrames(id, catalog, c)
    else if was.value.None? || now.None? then []
    else if was.value.value.capacity != now.value.capacity then OpenFrames(id, catalog, c)
    else
      match SlotFrames(id, SplitOf(was.value.value.slots, now.value.slots))
      case Some(fs) => fs
      case None => OpenFrames(id, catalog, c)
  }

  function AllFrames(ids: seq<WindowId>, sent: Baseline, catalog: Catalog, containers: map<WindowId, Container>): seq<Frame>
    requires SmallBaseline(sent)
    requires forall id | id in ids :: id in containers && Bounded(containers[id])
  {
    if ids == [] then []
    else AllFrames(ids[..|ids| - 1], sent, catalog, containers)
         + FramesFor(ids[|ids| - 1], Known(sent, ids[|ids| - 1]), catalog, containers[ids[|ids| - 1]])
  }

  predicate AllFor(fs: seq<Frame>, id: WindowId) {
    forall i | 0 <= i < |fs| :: fs[i].id == id
  }

  predicate NoOpens(fs: seq<Frame>) {
    forall i | 0 <= i < |fs| :: !fs[i].Open?
  }

  lemma {:induction false} DeletesAreFor(id: WindowId, from: nat, end: nat)
    requires from <= end <= 256
    ensures AllFor(Deletes(id, from, end), id) && NoOpens(Deletes(id, from, end))
    decreases end
  {
    if from != end {
      DeletesAreFor(id, from, end - 1);
    }
  }

  lemma {:induction false} CreatesAreFor(id: WindowId, items: seq<Look>)
    ensures AllFor(Creates(id, items), id) && NoOpens(Creates(id, items))
  {
    if items != [] {
      CreatesAreFor(id, items[..|items| - 1]);
    }
  }

  lemma {:induction false} ChangesAreFor(id: WindowId, from: nat, before: seq<Look>, after: seq<Look>)
    requires |before| == |after| && from + |before| <= 256
    ensures AllFor(Changes(id, from, before, after), id) && NoOpens(Changes(id, from, before, after))
    decreases |before|
  {
    if before != [] {
      ChangesAreFor(id, from, before[..|before| - 1], after[..|before| - 1]);
    }
  }

  lemma {:induction false} ReplayConcat(client: Client, fs: seq<Frame>, gs: seq<Frame>)
    ensures Replay(client, fs + gs) == Replay(Replay(client, fs), gs)
    decreases |gs|
  {
    if gs == [] {
      assert fs + gs == fs;
    } else {
      assert (fs + gs)[..|fs + gs| - 1] == fs + gs[..|gs| - 1];
      ReplayConcat(client, fs, gs[..|gs| - 1]);
    }
  }

  /** Records of one window leave the others alone, and edit their own slot by slot. */
  lemma {:induction false} ReplayIsLocal(client: Client, fs: seq<Frame>, id: WindowId)
    requires AllFor(fs, id)
    ensures forall other | other != id :: (other in Replay(client, fs) <==> other in client)
                                          && (other in client ==> Replay(client, fs)[other] == client[other])
    ensures NoOpens(fs) && id in client ==>
      id in Replay(client, fs) && Replay(client, fs)[id] == client[id].(slots := Edits(client[id].slots, fs))
  {
    if fs != [] {
      ReplayIsLocal(client, fs[..|fs| - 1], id);
      assert NoOpens(fs) ==> NoOpens(fs[..|fs| - 1]);
    }
  }

  lemma SlotFramesAreFor(id: WindowId, s: Split)
    requires |s.front| + |s.before| <= 255 && SlotFrames(id, s).Some?
    ensures AllFor(SlotFrames(id, s).value, id) && NoOpens(SlotFrames(id, s).value)
  {
    DeletesAreFor(id, |s.front|, |s.front| + |s.before|);
    CreatesAreFor(id, s.after);
    if |s.before| == |s.after| {
      ChangesAreFor(id, |s.front|, s.before, s.after);
    }
  }

  lemma FramesAreFor(id: WindowId, was: Option<Option<Window>>, catalog: Catalog, c: Container)
    requires Small(was) && Bounded(c)
    ensures AllFor(FramesFor(id, was, catalog, c), id)
  {
    var now := Rendered(catalog, c);
    if was.Some? && was.value.Some? && now.Some? {
      var s := SplitOf(was.value.value.slots, now.value.slots);
      if SlotFrames(id, s).Some? {
        SlotFramesAreFor(id, s);
      }
    }
  }

  /** Does this client show this window? */
  predicate Displays(client: Client, id: WindowId, w: Window) {
    id in client && client[id] == w
  }

  /** The client shows every window of the baseline that has been rendered. */
  predicate InSync(client: Client, sent: Baseline) {
    forall id | id in sent && sent[id].Some? :: Displays(client, id, sent[id].value)
  }

  /** The records of one window bring the client to what is there now. */
  predicate Conveyed(client: Client, id: WindowId, was: Option<Option<Window>>, catalog: Catalog, c: Container)
    requires Small(was) && Bounded(c) && Rendered(catalog, c).Some?
  {
    var now := Rendered(catalog, c).value;
    if was == Some(None) then Displays(client, id, now)
    else if was.None? || was.value.value.capacity != now.capacity
            || SlotFrames(id, SplitOf(was.value.value.slots, now.slots)).None? then
      c.item.serverId in catalog || Displays(client, id, now)
    else !InsertedBefore(SplitOf(was.value.value.slots, now.slots))
  }

  /** A client that shows a window and gets its slot records. */
  lemma SlotRecordsReplay(client: Client, id: WindowId, was: Window, now: Window)
    requires |was.slots| <= 255 && Displays(client, id, was) && was.capacity == now.capacity
    requires SlotFrames(id, SplitOf(was.slots, now.slots)).Some?
    ensures Displays(Replay(client, SlotFrames(id, SplitOf(was.slots, now.slots)).value), id, now)
            <==> !InsertedBefore(SplitOf(was.slots, now.slots))
  {
    var s := SplitOf(was.slots, now.slots);
    SplitIsGood(was.slots, now.slots);
    SlotFramesAreFor(id, s);
    ReplayIsLocal(client, SlotFrames(id, s).value, id);
    DeltaReplays(id, s);
  }

  lemma FullRecordReplays(client: Client, id: WindowId, catalog: Catalog, c: Container)
    requires Rendered(catalog, c).Some?
    ensures Displays(Replay(client, OpenFrames(id, catalog, c)), id, Rendered(catalog, c).value)
            <==> c.item.serverId in catalog || Displays(client, id, Rendered(catalog, c).value)
  {
    var fs := OpenFrames(id, catalog, c);
    assert fs != [] ==> fs[..0] == [] && Replay(client, fs) == Receive(client, fs[0]);
  }

  lemma OneWindowReplays(client: Client, id: WindowId, was: Option<Option<Window>>, catalog: Catalog, c: Container)
    requires Small(was) && Bounded(c) && Rendered(catalog, c).Some?
    requires was.Some? && was.value.Some? ==> Displays(client, id, was.value.value)
    ensures Displays(Replay(client, FramesFor(id, was, catalog, c)), id, Rendered(catalog, c).value)
            <==> Conveyed(client, id, was, catalog, c)
  {
    var now := Rendered(catalog, c).value;
    if was.Some? && was.value.Some? && was.value.value.capacity == now.capacity
       && SlotFrames(id, SplitOf(was.value.value.slots, now.slots)).Some? {
      SlotRecordsReplay(client, id, was.value.value, now);
    } else {
      FullRecordReplays(client, id, catalog, c);
    }
  }

  /** Windows do not disturb one another. */
  lemma {:induction false} OthersDoNotMatter(client: Client, ids: seq<WindowId>, sent: Baseline, catalog: Catalog,
                                             containers: map<WindowId, Container>, id: WindowId)
    requires SmallBaseline(sent)
    requires forall x | x in ids :: x in containers && Bounded(containers[x])
    requires id !in ids
    ensures var after := Replay(client, AllFrames(ids, sent, catalog, containers));
      (id in after <==> id in client) && (id in client ==> after[id] == client[id])
  {
    if ids != [] {
      var front, last := ids[..|ids| - 1], ids[|ids| - 1];
      OthersDoNotMatter(client, front, sent, catalog, containers, id);
      var fs := FramesFor(last, Known(sent, last), catalog, containers[last]);
      ReplayConcat(client, AllFrames(front, sent, catalog, containers), fs);
      FramesAreFor(last, Known(sent, last), catalog, containers[last]);
      ReplayIsLocal(Replay(client, AllFrames(front, sent, catalog, containers)), fs, last);
    }
  }

  /**
   * A client that shows its baseline and replays an update shows a rendered window correctly exactly
   * if that window was conveyed; the others do not matter.
   */
  lemma {:induction false} UpdateReplays(client: Client, ids: seq<WindowId>, sent: Baseline, catalog: Catalog,
                                         containers: map<WindowId, Container>, id: WindowId)
    requires SmallBaseline(sent) && InSync(client, sent)
    requires forall x | x in ids :: x in containers && Bounded(containers[x])
    requires StrictlyAscending(ids)
    requires id in ids && Rendered(catalog, containers[id]).Some?
    ensures Displays(Replay(client, AllFrames(ids, sent, catalog, containers)), id, Rendered(catalog, containers[id]).value)
            <==> Conveyed(client, id, Known(sent, id), catalog, containers[id])
  {
    var front, last := ids[..|ids| - 1], ids[|ids| - 1];
    var earlier := AllFrames(front, sent, catalog, containers);
    var fs := FramesFor(last, Known(sent, last), catalog, containers[last]);
    var mid := Replay(client, earlier);
    assert AllFrames(ids, sent, catalog, containers) == earlier + fs;
    ReplayConcat(client, earlier, fs);
    if id == last {
      OthersDoNotMatter(client, front, sent, catalog, containers, id);
      assert id in sent && sent[id].Some? ==> Displays(mid, id, sent[id].value);
      OneWindowReplays(mid, id, Known(sent, id), catalog, containers[id]);
    } else {
      UpdateReplays(client, front, sent, catalog, containers, id);
      FramesAreFor(last, Known(sent, last), catalog, containers[last]);
      ReplayIsLocal(mid, fs, last);
    }
  }

  predicate AllBounded(containers: map<WindowId, Container>) {
    forall id | id in containers :: Bounded(containers[id])
  }

  /**
   * The whole update: a client that showed its baseline shows the new one after replaying the records
   * exactly if every rendered window was conveyed.
   */
  lemma {:induction false} UpdateKeepsSync(client: Client, sent: Baseline, catalog: Catalog, containers: map<WindowId, Container>, closed: set<WindowId>)
    requires SmallBaseline(sent) && InSync(client, sent) && AllBounded(containers)
    ensures var now := CurrentWindows(catalog, containers, closed);
      var fs := AllFrames(Ascending(now.Keys), sent, catalog, containers);
      InSync(Replay(client, fs), now) <==>
        forall id | id in now && now[id].Some? :: Conveyed(client, id, Known(sent, id), catalog, containers[id])
  {
    var now := CurrentWindows(catalog, containers, closed);
    var ids := Ascending(now.Keys);
    forall id | id in now && now[id].Some?
      ensures Displays(Replay(client, AllFrames(ids, sent, catalog, containers)), id, now[id].value)
              <==> Conveyed(client, id, Known(sent, id), catalog, containers[id])
    {
      UpdateReplays(client, ids, sent, catalog, containers, id);
    }
  }

  /** An update in progress: the first `i` windows have been adopted, the others are as before. */
  predicate Halfway(before: Baseline, sent: Baseline, current: Baseline, ids: seq<WindowId>, i: nat)
    requires i <= |ids| && forall id | id in ids :: id in current
  {
    && sent.Keys <= current.Keys
    && (forall j | 0 <= j < i :: Known(sent, ids[j]) == Some(current[ids[j]]))
    && (forall j | i <= j < |ids| :: Known(sent, ids[j]) == Known(before, ids[j]))
  }

  lemma HalfwayStep(before: Baseline, sent: Baseline, current: Baseline, ids: seq<WindowId>, i: nat)
    requires StrictlyAscending(ids) && i < |ids| && forall id | id in ids :: id in current
    requires Halfway(before, sent, current, ids, i)
    ensures Halfway(before, sent[ids[i] := current[ids[i]]], current, ids, i + 1)
  {
  }

  lemma AllFramesStep(ids: seq<WindowId>, i: nat, sent: Baseline, catalog: Catalog, containers: map<WindowId, Container>)
    requires SmallBaseline(sent) && i < |ids|
    requires forall id | id in ids :: id in containers && Bounded(containers[id])
    ensures Small(Known(sent, ids[i]))
    ensures AllFrames(ids[..i + 1], sent, catalog, containers)
         == AllFrames(ids[..i], sent, catalog, containers) + FramesFor(ids[i], Known(sent, ids[i]), catalog, containers[ids[i]])
  {
    assert ids[..i + 1][..i] == ids[..i];
  }

  lemma AllAdopted(ids: seq<WindowId>, before: Baseline, sent: Baseline, current: Baseline)
    requires Lists(ids, current.Keys) && Halfway(before, sent, current, ids, |ids|)
    ensures sent == current
  {
    forall id | id in current ensures id in sent && sent[id] == current[id] {
      assert id in ids;
      var j :| 0 <= j < |ids| && ids[j] == id;
      assert Known(sent, ids[j]) == Some(current[ids[j]]);
    }
  }

  /** The records emitted so far, next to the baseline adopted so far. */
  predicate Underway(before: Baseline, sent: Baseline, current: Baseline, ids: seq<WindowId>, i: nat,
                     fs: seq<Frame>, catalog: Catalog, containers: map<WindowId, Container>)
    requires SmallBaseline(before) && i <= |ids|
    requires forall id | id in ids :: id in current && id in containers && Bounded(containers[id])
  {
    Halfway(before, sent, current, ids, i) && fs == AllFrames(ids[..i], before, catalog, containers)
  }

  lemma UnderwayStart(before: Baseline, sent: Baseline, current: Baseline, ids: seq<WindowId>,
                      catalog: Catalog, containers: map<WindowId, Container>)
    requires SmallBaseline(before)
    requires forall id | id in ids :: id in current && id in containers && Bounded(containers[id])
    requires sent == map id | id in before && id in current :: before[id]
    ensures Underway(before, sent, current, ids, 0, [], catalog, containers)
  {
    assert ids[..0] == [];
  }

  lemma UnderwayStep(before: Baseline, sent: Baseline, current: Baseline, ids: seq<WindowId>, i: nat,
                     fs: seq<Frame>, catalog: Catalog, containers: map<WindowId, Container>)
    requires SmallBaseline(before) && StrictlyAscending(ids) && i < |ids|
    requires forall id | id in ids :: id in current && id in containers && Bounded(containers[id])
    requires Underway(before, sent, current, ids, i, fs, catalog, containers)
    ensures Known(sent, ids[i]) == Known(before, ids[i]) && Small(Known(sent, ids[i]))
    ensures Underway(before, sent[ids[i] := current[ids[i]]], current, ids, i + 1,
                     fs + FramesFor(ids[i], Known(before, ids[i]), catalog, containers[ids[i]]), catalog, containers)
  {
    HalfwayStep(before, sent, current, ids, i);
    AllFramesStep(ids, i, before, catalog, containers);
  }

  lemma UnderwayEnd(before: Baseline, sent: Baseline, current: Baseline, ids: seq<WindowId>,
                    fs: seq<Frame>, catalog: Catalog, containers: map<WindowId, Container>)
    requires SmallBaseline(before) && Lists(ids, current.Keys)
    requires forall id | id in ids :: id in current && id in containers && Bounded(containers[id])
    requires Underway(before, sent, current, ids, |ids|, fs, catalog, containers)
    ensures sent == current && fs == AllFrames(ids, before, catalog, containers)
  {
    assert ids[..|ids|] == ids;
    AllAdopted(ids, before, sent, current);
  }

  // ----- the session -----

  /** What a session remembers of the windows it has sent. */
  class Session {
    var sent: Baseline

    constructor ()
      ensures sent == map[]
    {
      sent := map[];
    }

    /** Emits the records of one update and adopts what is there now as the new baseline. */
    method DeltaFrames(catalog: Catalog, containers: map<WindowId, Container>, closed: set<WindowId>) returns (fs: seq<Frame>)
      requires SmallBaseline(sent) && AllBounded(containers)
      modifies this
      ensures sent == CurrentWindows(catalog, containers, closed) && SmallBaseline(sent)
      ensures fs == AllFrames(Ascending(sent.Keys), old(sent), catalog, containers)
    {
      var current := CurrentWindows(catalog, containers, closed);
      var ids: seq<WindowId> := VisitOrder(current.Keys);
      ghost var before := sent;
      sent := map id | id in sent && id in current :: sent[id];
      UnderwayStart(before, sent, current, ids, catalog, containers);
      fs := EmitEach(ids, current, catalog, containers, before);
      UnderwayEnd(before, sent, current, ids, fs, catalog, containers);
    }

    /** The records of the windows in turn. */
    method EmitEach(ids: seq<WindowId>, current: Baseline, catalog: Catalog, containers: map<WindowId, Container>,
                    ghost before: Baseline) returns (fs: seq<Frame>)
      requires SmallBaseline(before) && StrictlyAscending(ids)
      requires forall id | id in ids :: id in containers && Bounded(containers[id])
      requires forall id | id in ids :: id in current && current[id] == Rendered(catalog, containers[id])
      requires Underway(before, sent, current, ids, 0, [], catalog, containers)
      modifies this
      ensures Underway(before, sent, current, ids, |ids|, fs, catalog, containers)
    {
      fs := [];
      for i := 0 to |ids|
        invariant Underway(before, sent, current, ids, i, fs, catalog, containers)
      {
        UnderwayStep(before, sent, current, ids, i, fs, catalog, containers);
        var more := UpdateWindow(ids[i], catalog, containers[ids[i]]);
        fs := fs + more;
      }
    }

    /** One window's records; the baseline takes over the new rendering whatever was sent. */
    method UpdateWindow(id: WindowId, catalog: Catalog, c: Container) returns (fs: seq<Frame>)
      requires Small(Known(sent, id)) && Bounded(c)
      modifies this
      ensures sent == old(sent)[id := Rendered(catalog, c)]
      ensures fs == FramesFor(id, Known(old(sent), id), catalog, c)
    {
      var now := Rendered(catalog, c);
      if id !in sent {
        sent := sent[id := now];
        return OpenFrames(id, catalog, c);
      }
      var was := sent[id];
      sent := sent[id := now];
      if was.None? || now.None? {
        return [];
      }
      if was.value.capacity != now.value.capacity {
        return OpenFrames(id, catalog, c);
      }
      var delta := SlotDelta(id, was.value.slots, now.value.slots);
      return if delta.Some? then delta.value else OpenFrames(id, catalog, c);
    }

    /** Trims the shared front and back, then deletes, creates or changes what is left. */
    method SlotDelta(id: WindowId, prev: seq<Look>, cur: seq<Look>) returns (r: Option<seq<Frame>>)
      requires |prev| <= 255 && |cur| <= 255
      ensures r == SlotFrames(id, SplitOf(prev, cur))
    {
      var start, prevEnd, curEnd := TrimShared(prev, cur);
      var before, after := prev[start..prevEnd], cur[start..curEnd];
      assert SplitOf(prev, cur) == Split(prev[..start], before, after, prev[prevEnd..]);
      if after == [] {
        var fs := DeleteBlock(id, start, prevEnd);
        return Some(fs);
      }
      if before == [] {
        var fs := AppendBlock(id, after);
        return Some(fs);
      }
      if |before| == |after| {
        var fs := RewriteBlock(id, start, before, after);
        return Some(fs);
      }
      return None;
    }

    /** Where the two lists stop being the same, from the front and then from the back. */
    method TrimShared(prev: seq<Look>, cur: seq<Look>) returns (start: nat, prevEnd: nat, curEnd: nat)
      ensures start <= prevEnd <= |prev| && start <= curEnd <= |cur|
      ensures |prev| - prevEnd == |cur| - curEnd
      ensures start == Front(prev, cur, 0) && |prev| - prevEnd == Back(prev, cur, start, 0)
    {
      start := 0;
      while start < |prev| && start < |cur| && prev[start] == cur[start]
        invariant start <= |prev| && start <= |cur|
        invariant Front(prev, cur, start) == Front(prev, cur, 0)
      {
        start := start + 1;
      }
      prevEnd, curEnd := |prev|, |cur|;
      while prevEnd > start && curEnd > start && prev[prevEnd - 1] == cur[curEnd - 1]
        invariant start <= prevEnd <= |prev| && start <= curEnd <= |cur| && |prev| - prevEnd == |cur| - curEnd
        invariant Back(prev, cur, start, |prev| - prevEnd) == Back(prev, cur, start, 0)
      {
        prevEnd, curEnd := prevEnd - 1, curEnd - 1;
      }
    }

    method DeleteBlock(id: WindowId, start: nat, end: nat) returns (fs: seq<Frame>)
      requires start <= end <= 256
      ensures fs == Deletes(id, start, end)
    {
      fs := [];
      var slot := end;
      while slot > start
        invariant start <= slot <= end
        invariant fs + Deletes(id, start, slot) == Deletes(id, start, end)
      {
        slot := slot - 1;
        Assoc(fs, [Delete(id, slot)], Deletes(id, start, slot));
        fs := fs + [Delete(id, slot)];
      }
      assert fs + [] == fs;
    }

    method AppendBlock(id: WindowId, items: seq<Look>) returns (fs: seq<Frame>)
      ensures fs == Creates(id, items)
    {
      fs := [];
      for i := 0 to |items|
        invariant fs == Creates(id, items[..i])
      {
        assert items[..i + 1][..i] == items[..i];
        fs := fs + [Create(id, items[i])];
      }
      assert items[..|items|] == items;
    }

    method RewriteBlock(id: WindowId, start: nat, before: seq<Look>, after: seq<Look>) returns (fs: seq<Frame>)
      requires |before| == |after| && start + |before| <= 256
      ensures fs == Changes(id, start, before, after)
    {
      fs := [];
      for slot := 0 to |before|
        invariant fs == Changes(id, start, before[..slot], after[..slot])
      {
        assert before[..slot + 1][..slot] == before[..slot] && after[..slot + 1][..slot] == after[..slot];
        if before[slot] != after[slot] {
          fs := fs + [Change(id, start + slot, after[slot])];
        }
      }
      assert before[..|before|] == before && after[..|after|] == after;
    }
  }
}
