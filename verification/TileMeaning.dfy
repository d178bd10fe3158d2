module TileMeaning {
  // What the bytes of items, tiles and areas say, byte by byte; the decoders of TileStream answer exactly that.
  import opened Prelude
  import opened Geometry
  import opened Framing
  import opened TileStream

  /** One attribute as it is written: a code and the bytes that follow it. */
  datatype Entry = Entry(code: u8, value: seq<u8>)

  /** The width of each code's value; a text carries its length in its first two bytes. */
  predicate Proper(e: Entry) {
    var width := |e.value|;
    if e.code in {12, 14, 15, 17, 32, 33} then width == 1
    else if e.code in {4, 5, 10, 22} then width == 2
    else if e.code in {16, 18, 20, 21, 27, 28, 29, 30, 31, 35} then width == 4
    else if e.code == 8 then width == 5
    else
      && e.code in {6, 7, 19, 24, 25, 26}
      && 2 <= width <= 2 + 8192 && width == 2 + Word(e.value) && Utf8(e.value[2..])
  }

  predicate AllProper(es: seq<Entry>) {
    forall e | e in es :: Proper(e)
  }

  function Stream(es: seq<Entry>): seq<u8> {
    if es == [] then [] else [es[0].code] + es[0].value + Stream(es[1..])
  }

  /** The last entry with one of the codes. */
  function Last(es: seq<Entry>, codes: set<u8>): (r: Option<Entry>)
    ensures r.Some? ==> r.value in es && r.value.code in codes
  {
    if es == [] then None
    else if es[|es| - 1].code in codes then Some(es[|es| - 1])
    else Last(es[..|es| - 1], codes)
  }

  function Word(b: seq<u8>): int
    requires |b| >= 2
  {
    b[0] as int + 0x100 * (b[1] as int)
  }

  function Long(b: seq<u8>): int
    requires |b| >= 4
  {
    Word(b) + 0x1_0000 * Word(b[2..])
  }

  function Place(b: seq<u8>): Position
    requires |b| >= 5
  {
    Position(Word(b), Word(b[2..]), b[4])
  }

  /** Every field of the item is what the last entry with its code says, or what a bare item has. */
  predicate Says(item: Item, id: seq<u8>, es: seq<Entry>)
    requires |id| == 2 && AllProper(es)
  {
    && item.serverId == Word(id) && SaysIds(item, es) && SaysTexts(item, es)
    && SaysWhereAndWhen(item, es) && SaysCounts(item, es)
  }

  predicate SaysIds(item: Item, es: seq<Entry>)
    requires AllProper(es)
  {
    && item.actionId == (match Last(es, {4}) case None => None case Some(e) => Some(Word(e.value)))
    && item.uniqueId == (match Last(es, {5}) case None => None case Some(e) => Some(Word(e.value)))
  }

  predicate SaysWhereAndWhen(item: Item, es: seq<Entry>)
    requires AllProper(es)
  {
    && item.teleport == (match Last(es, {8}) case None => None case Some(e) => Some(Place(e.value)))
    && item.duration == (match Last(es, {16}) case None => None case Some(e) => Some(Long(e.value)))
  }

  predicate SaysTexts(item: Item, es: seq<Entry>)
    requires AllProper(es)
  {
    && item.text == (match Last(es, {6}) case None => None case Some(e) => Some(e.value[2..]))
    && item.description == (match Last(es, {7}) case None => None case Some(e) => Some(e.value[2..]))
  }

  predicate SaysCounts(item: Item, es: seq<Entry>)
    requires AllProper(es)
  {
    && item.charges == (match Last(es, {12, 22})
                        case None => None
                        case Some(e) => Some(if e.code == 12 then e.value[0] else Word(e.value)))
    && item.count == (match Last(es, {15}) case None => 1 case Some(e) => if e.value[0] == 0 then 1 else e.value[0])
  }

  /** Item data end with the input or, inside a tile, before the next flags or item. */
  predicate Ends(rest: seq<u8>, inTile: bool) {
    rest == [] || (inTile && rest[0] in {3, 9})
  }

  ghost predicate ItemSays(s: seq<u8>, inTile: bool, es: seq<Entry>, item: Item, rest: seq<u8>) {
    && AllProper(es) && |s| >= 2 && s[2..] == Stream(es) + rest && Ends(rest, inTile)
    && Says(item, s[..2], es) && item.children == []
  }

  /** The payload decoder accepts exactly an identifier with proper entries, and answers what they say. */
  lemma ItemsMeanWhatTheySay(s: seq<u8>, inTile: bool, item: Item, rest: seq<u8>)
    ensures GetItem(s, inTile) == Ok(Got(item, rest)) <==> exists es :: ItemSays(s, inTile, es, item, rest)
  {
    if GetItem(s, inTile) == Ok(Got(item, rest)) {
      var id := GetWord(s).value.value;
      var attrs := PutGetAttrs(s[2..], BareItem(id), inTile);
      EntriesWrite(attrs);
      EntriesSay(id, s[..2], attrs);
      assert Described(item, s[..2], attrs) && ItemSays(s, inTile, Entries(attrs), item, rest);
    }
    forall es | ItemSays(s, inTile, es, item, rest)
      ensures GetItem(s, inTile) == Ok(Got(item, rest))
    {
      var id := GetWord(s).value.value;
      var attrs := AttrsOf(es);
      EntriesWrite(attrs);
      EntriesSay(id, s[..2], attrs);
      GetPutAttrs(attrs, rest, BareItem(id), inTile);
    }
  }

  // ----- entries and attributes -----

  function EntryOf(a: Attr): Entry
    requires Legal(a)
  {
    Entry(a.code, PutField(a.field))
  }

  function Entries(attrs: seq<Attr>): (es: seq<Entry>)
    requires AllLegal(attrs)
    ensures |es| == |attrs| && forall k | 0 <= k < |es| :: es[k] == EntryOf(attrs[k])
  {
    seq(|attrs|, k requires 0 <= k < |attrs| => EntryOf(attrs[k]))
  }

  lemma TextBytes(t: seq<u8>)
    requires LegalText(t)
    ensures PutText(t)[2..] == t && |PutText(t)| == 2 + |t| && Word(PutText(t)) == |t|
  {
  }

  lemma LongBytes(l: u32)
    ensures Long(PutLong(l)) == l
  {
  }

  lemma PlaceBytes(p: Position)
    ensures |PutPosition(p)| == 5 && Place(PutPosition(p)) == p
  {
    assert PutPosition(p)[2..] == PutWord(p.y) + [p.z];
  }

  lemma EntryIsProper(a: Attr)
    requires Legal(a)
    ensures Proper(EntryOf(a))
  {
    match a.field
    case Text(t) => TextBytes(t);
    case Place(p) => PlaceBytes(p);
    case _ =>
  }

  lemma EntriesAreProper(attrs: seq<Attr>)
    requires AllLegal(attrs)
    ensures AllProper(Entries(attrs))
  {
    forall e | e in Entries(attrs) ensures Proper(e) {
      var k :| 0 <= k < |attrs| && e == Entries(attrs)[k];
      EntryIsProper(attrs[k]);
    }
  }

  lemma {:induction false} EntriesWrite(attrs: seq<Attr>)
    requires AllLegal(attrs)
    ensures AllProper(Entries(attrs)) && Stream(Entries(attrs)) == PutAttrs(attrs)
    decreases |attrs|
  {
    EntriesAreProper(attrs);
    if attrs != [] {
      EntriesWrite(attrs[1..]);
      assert Entries(attrs)[1..] == Entries(attrs[1..]);
    }
  }

  lemma {:induction false} ApplyLast(item: Item, attrs: seq<Attr>)
    requires AllLegal(attrs) && attrs != []
    ensures var n := |attrs| - 1;
      ApplyAll(item, attrs) == Apply(ApplyAll(item, attrs[..n]), attrs[n])
    decreases |attrs|
  {
    var n := |attrs| - 1;
    if n > 0 {
      ApplyLast(Apply(item, attrs[0]), attrs[1..]);
      assert attrs[1..][..n - 1] == attrs[..n][1..];
    }
  }

  /** The item is what the entries of the attributes say. */
  ghost predicate Described(item: Item, id: seq<u8>, attrs: seq<Attr>)
    requires AllLegal(attrs) && |id| == 2
  {
    AllProper(Entries(attrs)) && Says(item, id, Entries(attrs)) && item.children == []
  }

  lemma {:induction false} EntriesSay(id: u16, idBytes: seq<u8>, attrs: seq<Attr>)
    requires AllLegal(attrs) && |idBytes| == 2 && Word(idBytes) == id
    ensures Described(ApplyAll(BareItem(id), attrs), idBytes, attrs)
    decreases |attrs|
  {
    if attrs == [] {
      assert Entries(attrs) == [];
    } else {
      var n := |attrs| - 1;
      EntriesSay(id, idBytes, attrs[..n]);
      ApplyLast(BareItem(id), attrs);
      DescribedOneMore(ApplyAll(BareItem(id), attrs[..n]), idBytes, attrs[..n], attrs[n]);
      assert attrs[..n] + [attrs[n]] == attrs;
    }
  }

  lemma DescribedOneMore(item: Item, id: seq<u8>, attrs: seq<Attr>, a: Attr)
    requires AllLegal(attrs) && Legal(a) && |id| == 2 && Described(item, id, attrs)
    ensures AllLegal(attrs + [a]) && Described(Apply(item, a), id, attrs + [a])
  {
    var es := Entries(attrs + [a]);
    EntriesAreProper(attrs + [a]);
    assert es[..|attrs|] == Entries(attrs);
    assert es[|attrs|] in es;
    ApplyKeeps(item, a);
    IdsOneMore(item, a, es);
    TextsOneMore(item, a, es);
    WhereAndWhenOneMore(item, a, es);
    CountsOneMore(item, a, es);
  }

  lemma ApplyKeeps(item: Item, a: Attr)
    requires Legal(a)
    ensures Apply(item, a).serverId == item.serverId && Apply(item, a).children == item.children
  {
  }

  lemma IdsOneMore(item: Item, a: Attr, es: seq<Entry>)
    requires Legal(a) && es != [] && AllProper(es) && es[|es| - 1] == EntryOf(a)
    requires AllProper(es[..|es| - 1]) && SaysIds(item, es[..|es| - 1])
    ensures SaysIds(Apply(item, a), es)
  {
  }

  lemma TextsOneMore(item: Item, a: Attr, es: seq<Entry>)
    requires Legal(a) && es != [] && AllProper(es) && es[|es| - 1] == EntryOf(a)
    requires AllProper(es[..|es| - 1]) && SaysTexts(item, es[..|es| - 1])
    ensures SaysTexts(Apply(item, a), es)
  {
    if a.field.Text? {
      TextBytes(a.field.t);
    }
  }

  lemma WhereAndWhenOneMore(item: Item, a: Attr, es: seq<Entry>)
    requires Legal(a) && es != [] && AllProper(es) && es[|es| - 1] == EntryOf(a)
    requires AllProper(es[..|es| - 1]) && SaysWhereAndWhen(item, es[..|es| - 1])
    ensures SaysWhereAndWhen(Apply(item, a), es)
  {
    if a.field.Long? {
      LongBytes(a.field.l);
    } else if a.field.Place? {
      PlaceBytes(a.field.p);
    }
  }

  lemma CountsOneMore(item: Item, a: Attr, es: seq<Entry>)
    requires Legal(a) && es != [] && AllProper(es) && es[|es| - 1] == EntryOf(a)
    requires AllProper(es[..|es| - 1]) && SaysCounts(item, es[..|es| - 1])
    ensures SaysCounts(Apply(item, a), es)
  {
  }

  // ----- every proper entry is the writing of a legal attribute -----

  function AttrOf(e: Entry): (a: Attr)
    requires Proper(e)
  {
    var v := e.value;
    Attr(e.code,
         if e.code in {12, 14, 15, 17, 32, 33} then Byte8(v[0])
         else if e.code in {4, 5, 10, 22} then Field.Word(Word(v))
         else if e.code in {16, 18, 20, 21, 27, 28, 29, 30, 31, 35} then Field.Long(Long(v))
         else if e.code == 8 then Field.Place(Place(v))
         else Text(v[2..]))
  }

  lemma LongIsWritten(v: seq<u8>)
    requires |v| == 4
    ensures PutLong(Long(v)) == v
  {
    assert Long(v) % 0x1_0000 == Word(v) && Long(v) / 0x1_0000 == Word(v[2..]);
    assert PutWord(Word(v)) == v[..2] && PutWord(Word(v[2..])) == v[2..];
  }

  lemma PlaceIsWritten(v: seq<u8>)
    requires |v| == 5
    ensures PutPosition(Place(v)) == v
  {
    assert PutWord(Word(v)) == v[..2] && PutWord(Word(v[2..])) == v[2..4];
  }

  lemma TextIsWritten(v: seq<u8>)
    requires 2 <= |v| <= 2 + 8192 && |v| == 2 + Word(v) && Utf8(v[2..])
    ensures LegalText(v[2..]) && PutText(v[2..]) == v
  {
    assert PutWord(Word(v)) == v[..2];
  }

  lemma AttrIsLegal(e: Entry)
    requires Proper(e)
    ensures Legal(AttrOf(e)) && EntryOf(AttrOf(e)) == e
  {
    match AttrOf(e).field
    case Byte8(_) =>
    case Word(w) => assert PutWord(w) == e.value;
    case Long(_) => LongIsWritten(e.value);
    case Place(_) => PlaceIsWritten(e.value);
    case Text(_) => TextIsWritten(e.value);
  }

  ghost function AttrsOf(es: seq<Entry>): (attrs: seq<Attr>)
    requires AllProper(es)
    ensures AllLegal(attrs) && Entries(attrs) == es
  {
    forall e: Entry | Proper(e) ensures Legal(AttrOf(e)) && EntryOf(AttrOf(e)) == e { AttrIsLegal(e); }
    seq(|es|, k requires 0 <= k < |es| => AttrOf(es[k]))
  }

  // ----- the properties of a tile -----

  /** One property as it is written: four bytes of flags, or an item in line. */
  datatype Part = FlagPart(bytes: seq<u8>) | ItemPart(id: seq<u8>, entries: seq<Entry>, item: Item)

  predicate PartSays(p: Part) {
    match p
    case FlagPart(bytes) => |bytes| == 4
    case ItemPart(id, es, item) => |id| == 2 && AllProper(es) && Says(item, id, es) && item.children == []
  }

  predicate PartsSay(parts: seq<Part>) {
    forall p | p in parts :: PartSays(p)
  }

  function Bytes(p: Part): seq<u8> {
    match p
    case FlagPart(bytes) => [3] + bytes
    case ItemPart(id, es, _) => [9] + (id + Stream(es))
  }

  function AllBytes(parts: seq<Part>): seq<u8> {
    if parts == [] then [] else Bytes(parts[0]) + AllBytes(parts[1..])
  }

  /** The flags written last. */
  function LastFlags(parts: seq<Part>): Option<u32>
    requires PartsSay(parts)
  {
    if parts == [] then None
    else
      match LastFlags(parts[1..])
      case Some(flags) => Some(flags)
      case None => if parts[0].FlagPart? then assert PartSays(parts[0]); Some(Long(parts[0].bytes)) else None
  }

  /** The items in line, in the order in which they are written. */
  function ItemsIn(parts: seq<Part>): seq<Item> {
    if parts == [] then []
    else (if parts[0].ItemPart? then [parts[0].item] else []) + ItemsIn(parts[1..])
  }

  ghost predicate PropsSay(s: seq<u8>, parts: seq<Part>, tile: Tile) {
    && PartsSay(parts) && s == AllBytes(parts) && tile.items == ItemsIn(parts)
    && tile.flags == match LastFlags(parts) case None => 0 case Some(flags) => flags
  }

  /** The property loop accepts exactly proper properties, and gathers the last flags and every item in order. */
  lemma PropertiesMeanWhatTheySay(s: seq<u8>, tile: Tile)
    ensures GetProps(s, Tile(0, [])) == Ok(tile) <==> exists parts :: PropsSay(s, parts, tile)
  {
    if GetProps(s, Tile(0, [])) == Ok(tile) {
      var props := PutGetProps(s, Tile(0, []));
      PartsWrite(props);
      PartsGather(Tile(0, []), props);
      assert PropsSay(s, PartsOf(props), tile);
    }
    forall parts | PropsSay(s, parts, tile) ensures GetProps(s, Tile(0, [])) == Ok(tile) {
      SaidPropertiesAreRead(s, parts, tile);
    }
  }

  lemma SaidPropertiesAreRead(s: seq<u8>, parts: seq<Part>, tile: Tile)
    requires PropsSay(s, parts, tile)
    ensures GetProps(s, Tile(0, [])) == Ok(tile)
  {
    var props := PropsOf(parts);
    PartsWrite(props);
    PartsGather(Tile(0, []), props);
    assert [] + ItemsIn(parts) == tile.items;
    GetPutProps(props, Tile(0, []));
  }

  function PartOf(p: TileProp): Part
    requires LegalProp(p)
  {
    match p
    case Flags(flags) => FlagPart(PutLong(flags))
    case Inline(id, attrs) => ItemPart(PutWord(id), Entries(attrs), ApplyAll(BareItem(id), attrs))
  }

  function PartsOf(props: seq<TileProp>): (parts: seq<Part>)
    requires LegalProps(props)
    ensures |parts| == |props| && forall k | 0 <= k < |parts| :: parts[k] == PartOf(props[k])
  {
    seq(|props|, k requires 0 <= k < |props| => PartOf(props[k]))
  }

  lemma PartWrites(p: TileProp)
    requires LegalProp(p)
    ensures PartSays(PartOf(p)) && Bytes(PartOf(p)) == PutProp(p)
  {
    match p
    case Flags(_) =>
    case Inline(id, attrs) =>
      EntriesWrite(attrs);
      EntriesSay(id, PutWord(id), attrs);
      assert Described(ApplyAll(BareItem(id), attrs), PutWord(id), attrs);
  }

  lemma {:induction false} PartsWrite(props: seq<TileProp>)
    requires LegalProps(props)
    ensures PartsSay(PartsOf(props)) && AllBytes(PartsOf(props)) == PutProps(props)
    decreases |props|
  {
    forall k | 0 <= k < |props| ensures PartSays(PartsOf(props)[k]) {
      PartWrites(props[k]);
    }
    if props != [] {
      PartWrites(props[0]);
      PartsWrite(props[1..]);
      assert PartsOf(props)[1..] == PartsOf(props[1..]);
    }
  }

  /** What a tile holds once the parts are added to it. */
  predicate Gathered(tile: Tile, parts: seq<Part>, after: Tile)
    requires PartsSay(parts)
  {
    && after.items == tile.items + ItemsIn(parts)
    && after.flags == match LastFlags(parts) case None => tile.flags case Some(flags) => flags
  }

  lemma {:induction false} PartsGather(tile: Tile, props: seq<TileProp>)
    requires LegalProps(props) && PartsSay(PartsOf(props))
    ensures Gathered(tile, PartsOf(props), AddProps(tile, props))
    decreases |props|
  {
    if props == [] {
      assert PartsOf(props) == [];
    } else {
      var rest := PartsOf(props)[1..];
      assert rest == PartsOf(props[1..]);
      PartsGather(AddProp(tile, props[0]), props[1..]);
      PartAdds(tile, props[0]);
      OneMoreGathers(tile, AddProp(tile, props[0]), PartsOf(props), AddProps(tile, props));
    }
  }

  /** One part sets the flags, or adds its item behind the others. */
  predicate Adds(tile: Tile, p: Part, after: Tile)
    requires PartSays(p)
  {
    match p
    case FlagPart(bytes) => after == tile.(flags := Long(bytes))
    case ItemPart(_, _, item) => after == tile.(items := tile.items + [item])
  }

  lemma PartAdds(tile: Tile, p: TileProp)
    requires LegalProp(p) && PartSays(PartOf(p))
    ensures Adds(tile, PartOf(p), AddProp(tile, p))
  {
    if p.Flags? {
      LongBytes(p.flags);
    }
  }

  lemma OneMoreGathers(tile: Tile, next: Tile, parts: seq<Part>, after: Tile)
    requires parts != [] && PartsSay(parts) && Gathered(next, parts[1..], after)
    requires PartSays(parts[0]) && Adds(tile, parts[0], next)
    ensures Gathered(tile, parts, after)
  {
    var more := ItemsIn(parts[1..]);
    match parts[0]
    case FlagPart(_) => assert ItemsIn(parts) == [] + more == more;
    case ItemPart(_, _, item) => Assoc(tile.items, [item], more);
  }

  ghost function PropOf(p: Part): (prop: TileProp)
    requires PartSays(p)
    ensures LegalProp(prop) && PartOf(prop) == p
  {
    match p
    case FlagPart(bytes) =>
      LongIsWritten(bytes);
      Flags(Long(bytes))
    case ItemPart(id, es, item) =>
      assert PutWord(Word(id)) == id;
      EntriesSay(Word(id), id, AttrsOf(es));
      Inline(Word(id), AttrsOf(es))
  }

  ghost function PropsOf(parts: seq<Part>): (props: seq<TileProp>)
    requires PartsSay(parts)
    ensures LegalProps(props) && PartsOf(props) == parts
  {
    var props := seq(|parts|, k requires 0 <= k < |parts| => PropOf(parts[k]));
    assert forall k | 0 <= k < |parts| :: LegalProp(props[k]) && PartOf(props[k]) == parts[k];
    props
  }

  // ----- item nodes, tiles and areas -----

  /** A node of kind 6 stands for an item, its children in order for what is inside. */
  ghost predicate NodeSays(n: Node, item: Item)
    decreases n
  {
    && (exists es :: ItemSays(n.props, false, es, item.(children := []), []))
    && NodesSay(n.children, item.children)
  }

  ghost predicate NodesSay(ns: seq<Node>, items: seq<Item>)
    decreases ns
  {
    |items| == |ns| && forall k | 0 <= k < |ns| :: ns[k].kind == 6 && NodeSays(ns[k], items[k])
  }

  lemma {:induction false} NodeMeansWhatItSays(n: Node, item: Item)
    ensures GetItemNode(n) == Ok(item) <==> NodeSays(n, item)
    decreases n
  {
    NodesMeanWhatTheySay(n.children, item.children);
    ItemsMeanWhatTheySay(n.props, false, item.(children := []), []);
    match GetItem(n.props, false)
    case Err =>
    case Ok(Got(bare, rest)) =>
      ItemsMeanWhatTheySay(n.props, false, bare, rest);
  }

  lemma {:induction false} NodesMeanWhatTheySay(ns: seq<Node>, items: seq<Item>)
    ensures GetItemNodes(ns) == Ok(items) <==> NodesSay(ns, items)
    decreases ns
  {
    if ns != [] && items != [] {
      NodeMeansWhatItSays(ns[0], items[0]);
      NodesMeanWhatTheySay(ns[1..], items[1..]);
      assert items == [items[0]] + items[1..];
      NodesSayMore(ns, items);
    }
  }

  lemma NodesSayMore(ns: seq<Node>, items: seq<Item>)
    requires ns != [] && items != []
    ensures NodesSay(ns, items) <==> ns[0].kind == 6 && NodeSays(ns[0], items[0]) && NodesSay(ns[1..], items[1..])
  {
    if ns[0].kind == 6 && NodeSays(ns[0], items[0]) && NodesSay(ns[1..], items[1..]) {
      forall k | 0 <= k < |ns| ensures ns[k].kind == 6 && NodeSays(ns[k], items[k]) {
        assert k > 0 ==> ns[k] == ns[1..][k - 1] && items[k] == items[1..][k - 1];
      }
    }
  }

  /** Two offsets from the base and, on a node of kind 14, four bytes of house, not all zero. */
  ghost predicate HeadSays(n: Node, base: Position, position: Position, house: Option<u32>) {
    && |n.props| >= (if n.kind == 14 then 6 else 2)
    && position.x == base.x + n.props[0] && position.y == base.y + n.props[1] && position.z == base.z
    && house == (if n.kind == 14 then Some(Long(n.props[2..6])) else None) && house != Some(0)
  }

  /** Properties, then child nodes, whose items lie above those written in line: at most 64 in all. */
  ghost predicate BodySays(s: seq<u8>, children: seq<Node>, parts: seq<Part>, flags: u32, items: seq<Item>) {
    && PropsSay(s, parts, Tile(flags, ItemsIn(parts)))
    && ItemsIn(parts) <= items && NodesSay(children, items[|ItemsIn(parts)|..]) && |items| <= 64
  }

  ghost predicate TileSays(n: Node, base: Position, parts: seq<Part>, placed: PlacedTile) {
    && HeadSays(n, base, placed.position, placed.house)
    && BodySays(n.props[if n.kind == 14 then 6 else 2..], n.children, parts, placed.flags, placed.items)
  }

  lemma BodiesMeanWhatTheySay(position: Position, house: Option<u32>, s: seq<u8>, children: seq<Node>, placed: PlacedTile)
    requires house != Some(0) && placed.position == position && placed.house == house
    ensures GetContent(position, house, s, children) == Ok(placed)
       <==> exists parts :: BodySays(s, children, parts, placed.flags, placed.items)
  {
    if GetContent(position, house, s, children) == Ok(placed) {
      var tile := GetProps(s, Tile(0, [])).value;
      var content := GetItemNodes(children).value;
      PropertiesMeanWhatTheySay(s, tile);
      NodesMeanWhatTheySay(children, content);
      var parts :| PropsSay(s, parts, tile);
      assert placed.items[|ItemsIn(parts)|..] == content;
      assert BodySays(s, children, parts, placed.flags, placed.items);
    }
    forall parts | BodySays(s, children, parts, placed.flags, placed.items)
      ensures GetContent(position, house, s, children) == Ok(placed)
    {
      var tile := Tile(placed.flags, ItemsIn(parts));
      var content := placed.items[|ItemsIn(parts)|..];
      SaidPropertiesAreRead(s, parts, tile);
      NodesMeanWhatTheySay(children, content);
      assert placed.items == tile.items + content;
    }
  }

  lemma HeadsMeanWhatTheySay(n: Node, base: Position, position: Position, house: Option<u32>, rest: seq<u8>)
    requires house != Some(0)
    ensures GetCorner(n.props, base) == Ok(Got(position, n.props[if |n.props| < 2 then 0 else 2..]))
            && GetHouse(n.kind, n.props[if |n.props| < 2 then 0 else 2..]) == Ok(Got(house, rest))
       <==> HeadSays(n, base, position, house) && rest == n.props[if n.kind == 14 then 6 else 2..]
  {
  }

  /** The tile decoder accepts exactly what is written so, and answers what it says. */
  lemma TilesMeanWhatTheySay(n: Node, base: Position, placed: PlacedTile)
    requires n.kind in {5, 14}
    ensures GetTile(n, base) == Ok(placed) <==> exists parts :: TileSays(n, base, parts, placed)
  {
    if GetTile(n, base) == Ok(placed) {
      var rest := GetHouse(n.kind, n.props[2..]).value.rest;
      HeadsMeanWhatTheySay(n, base, placed.position, placed.house, rest);
      BodiesMeanWhatTheySay(placed.position, placed.house, rest, n.children, placed);
      var parts :| BodySays(rest, n.children, parts, placed.flags, placed.items);
      assert TileSays(n, base, parts, placed);
    }
    forall parts | TileSays(n, base, parts, placed) ensures GetTile(n, base) == Ok(placed) {
      var rest := n.props[if n.kind == 14 then 6 else 2..];
      HeadsMeanWhatTheySay(n, base, placed.position, placed.house, rest);
      BodiesMeanWhatTheySay(placed.position, placed.house, rest, n.children, placed);
    }
  }

  /** Five bytes of base, and every child a tile that stands for the placed tile of its place. */
  ghost predicate AreaSays(n: Node, placed: seq<PlacedTile>) {
    |n.props| == 5 && ChildrenSay(n.children, Place(n.props), placed)
  }

  ghost predicate ChildSays(n: Node, base: Position, placed: PlacedTile) {
    n.kind in {5, 14} && exists parts :: TileSays(n, base, parts, placed)
  }

  ghost predicate ChildrenSay(ns: seq<Node>, base: Position, placed: seq<PlacedTile>) {
    |placed| == |ns| && forall k | 0 <= k < |ns| :: ChildSays(ns[k], base, placed[k])
  }

  lemma {:induction false} TileRunsMeanWhatTheySay(ns: seq<Node>, base: Position, placed: seq<PlacedTile>)
    ensures GetTiles(ns, base) == Ok(placed) <==> ChildrenSay(ns, base, placed)
    decreases |ns|
  {
    if ns != [] && placed != [] {
      ChildMeansWhatItSays(ns[0], base, placed[0]);
      TileRunsMeanWhatTheySay(ns[1..], base, placed[1..]);
      assert placed == [placed[0]] + placed[1..];
      ChildrenSayMore(ns, base, placed);
    }
  }

  lemma ChildMeansWhatItSays(n: Node, base: Position, placed: PlacedTile)
    ensures ChildSays(n, base, placed) <==> n.kind in {5, 14} && GetTile(n, base) == Ok(placed)
  {
    if n.kind in {5, 14} {
      TilesMeanWhatTheySay(n, base, placed);
    }
  }

  lemma ChildrenSayMore(ns: seq<Node>, base: Position, placed: seq<PlacedTile>)
    requires ns != [] && placed != []
    ensures ChildrenSay(ns, base, placed) <==> ChildSays(ns[0], base, placed[0]) && ChildrenSay(ns[1..], base, placed[1..])
  {
    if ChildSays(ns[0], base, placed[0]) && ChildrenSay(ns[1..], base, placed[1..]) {
      forall k | 0 <= k < |ns| ensures ChildSays(ns[k], base, placed[k]) {
        assert k > 0 ==> ns[k] == ns[1..][k - 1] && placed[k] == placed[1..][k - 1];
      }
    }
  }

  /** The area decoder accepts exactly a base with proper tiles, and answers what they say, in order. */
  lemma AreasMeanWhatTheySay(n: Node, placed: seq<PlacedTile>)
    ensures GetArea(n) == Ok(placed) <==> AreaSays(n, placed)
  {
    if |n.props| == 5 {
      BaseIsRead(n.props);
      TileRunsMeanWhatTheySay(n.children, Place(n.props), placed);
    }
  }

  lemma BaseIsRead(s: seq<u8>)
    requires |s| == 5
    ensures GetPosition(s) == Ok(Got(Place(s), []))
  {
    assert s[5..] == [] && s[2..][0] == s[2] && s[2..][1] == s[3];
  }

  // ----- texts -----

  /** A Unicode scalar value: any code point that is not a surrogate. */
  predicate Scalar(c: int) {
    0 <= c < 0xD800 || 0xE000 <= c < 0x11_0000
  }

  function Encoded(c: int): seq<u8>
    requires Scalar(c)
  {
    if c < 0x80 then [c]
    else if c < 0x800 then [0xC0 + c / 0x40, 0x80 + c % 0x40]
    else if c < 0x1_0000 then [0xE0 + c / 0x1000, 0x80 + c / 0x40 % 0x40, 0x80 + c % 0x40]
    else [0xF0 + c / 0x4_0000, 0x80 + c / 0x1000 % 0x40, 0x80 + c / 0x40 % 0x40, 0x80 + c % 0x40]
  }

  function AllEncoded(cs: seq<int>): seq<u8>
    requires forall c | c in cs :: Scalar(c)
  {
    if cs == [] then [] else assert cs[0] in cs; Encoded(cs[0]) + AllEncoded(cs[1..])
  }

  /** The bytes accepted as text are exactly the encodings of sequences of scalar values. */
  lemma TextsAreEncodedScalars(s: seq<u8>)
    ensures Utf8(s) <==> exists cs: seq<int> :: (forall c | c in cs :: Scalar(c)) && s == AllEncoded(cs)
  {
    if Utf8(s) {
      var cs := Decoded(s);
    }
    forall cs: seq<int> | (forall c | c in cs :: Scalar(c)) && s == AllEncoded(cs) ensures Utf8(s) {
      EncodedIsText(cs);
    }
  }

  lemma {:induction false} EncodedIsText(cs: seq<int>)
    requires forall c | c in cs :: Scalar(c)
    ensures Utf8(AllEncoded(cs))
  {
    if cs != [] {
      EncodedIsText(cs[1..]);
      EncodedInFront(cs[0], AllEncoded(cs[1..]));
    }
  }

  lemma EncodedInFront(c: int, s: seq<u8>)
    requires Scalar(c) && Utf8(s)
    ensures Utf8(Encoded(c) + s)
  {
    var t := Encoded(c) + s;
    assert t[|Encoded(c)|..] == s;
  }

  lemma {:induction false} Decoded(s: seq<u8>) returns (cs: seq<int>)
    requires Utf8(s)
    ensures (forall c | c in cs :: Scalar(c)) && s == AllEncoded(cs)
  {
    if s == [] {
      cs := [];
    } else {
      var c, n := FirstScalar(s);
      var more := Decoded(s[n..]);
      cs := [c] + more;
      assert cs[1..] == more;
    }
  }

  lemma FirstScalar(s: seq<u8>) returns (c: int, n: nat)
    requires s != [] && Utf8(s)
    ensures 0 < n <= |s| && Utf8(s[n..]) && Scalar(c) && Encoded(c) == s[..n]
  {
    if s[0] < 0x80 {
      c, n := s[0], 1;
    } else if s[0] < 0xE0 {
      c, n := 0x40 * (s[0] as int - 0xC0) + (s[1] - 0x80), 2;
    } else if s[0] < 0xF0 {
      c, n := 0x1000 * (s[0] as int - 0xE0) + 0x40 * (s[1] as int - 0x80) + (s[2] - 0x80), 3;
      ThreeBytes(c, s[0], s[1], s[2]);
    } else {
      c, n := 0x4_0000 * (s[0] as int - 0xF0) + 0x1000 * (s[1] as int - 0x80) + 0x40 * (s[2] as int - 0x80)
              + (s[3] - 0x80), 4;
      FourBytes(c, s[0], s[1], s[2], s[3]);
    }
  }

  lemma ThreeBytes(c: int, a: u8, b: u8, d: u8)
    requires 0xE0 <= a < 0xF0 && Tail(b) && Tail(d) && (a == 0xE0 ==> b >= 0xA0) && (a == 0xED ==> b < 0xA0)
    requires c == 0x1000 * (a as int - 0xE0) + 0x40 * (b as int - 0x80) + (d - 0x80)
    ensures Scalar(c) && Encoded(c) == [a, b, d]
  {
    assert c / 0x40 == 0x40 * (a as int - 0xE0) + (b - 0x80);
  }

  lemma FourBytes(c: int, a: u8, b: u8, d: u8, e: u8)
    requires 0xF0 <= a < 0xF5 && Tail(b) && Tail(d) && Tail(e)
    requires (a == 0xF0 ==> b >= 0x90) && (a == 0xF4 ==> b < 0x90)
    requires c == 0x4_0000 * (a as int - 0xF0) + 0x1000 * (b as int - 0x80) + 0x40 * (d as int - 0x80) + (e - 0x80)
    ensures Scalar(c) && Encoded(c) == [a, b, d, e]
  {
    assert c / 0x1000 == 0x40 * (a as int - 0xF0) + (b - 0x80);
    assert c / 0x40 == 0x1000 * (a as int - 0xF0) + 0x40 * (b as int - 0x80) + (d - 0x80);
  }
}
