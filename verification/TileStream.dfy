/** The attribute streams inside OTBM tile and item nodes, and the cursor that decodes them. */
module TileStream {
  // Every attribute has its own width, so a single wrong width would shift everything after it.
  import opened Prelude
  import opened Geometry
  import opened Framing

  const TILE: u8 := 5
  const ITEM: u8 := 6
  const HOUSE_TILE: u8 := 14
  const TILE_AREA: u8 := 4

  const ATTR_TILE_FLAGS: u8 := 3
  const ATTR_ACTION_ID: u8 := 4
  const ATTR_UNIQUE_ID: u8 := 5
  const ATTR_TEXT: u8 := 6
  const ATTR_DESC: u8 := 7
  const ATTR_TELE_DEST: u8 := 8
  const ATTR_ITEM: u8 := 9
  const ATTR_DEPOT_ID: u8 := 10
  const ATTR_RUNE_CHARGES: u8 := 12
  const ATTR_HOUSE_DOOR_ID: u8 := 14
  const ATTR_COUNT: u8 := 15
  const ATTR_DURATION: u8 := 16
  const ATTR_DECAYING_STATE: u8 := 17
  const ATTR_WRITTEN_DATE: u8 := 18
  const ATTR_WRITTEN_BY: u8 := 19
  const ATTR_SLEEPER_GUID: u8 := 20
  const ATTR_SLEEP_START: u8 := 21
  const ATTR_CHARGES: u8 := 22
  const ATTR_NAME: u8 := 24
  const ATTR_ARTICLE: u8 := 25
  const ATTR_PLURAL_NAME: u8 := 26
  const ATTR_WEIGHT: u8 := 27
  const ATTR_ATTACK: u8 := 28
  const ATTR_DEFENSE: u8 := 29
  const ATTR_EXTRA_DEFENSE: u8 := 30
  const ATTR_ARMOR: u8 := 31
  const ATTR_HIT_CHANCE: u8 := 32
  const ATTR_SHOOT_RANGE: u8 := 33
  const ATTR_DECAY_TO: u8 := 35

  const MAX_STRING_BYTES: nat := 8 * 1024
  const MAX_ITEMS_PER_TILE: nat := 64

  /** A placed item as the map loader keeps it. */
  datatype Item = Item(
    serverId: u16,
    count: u8,
    actionId: Option<u16>,
    uniqueId: Option<u16>,
    text: Option<seq<u8>>,
    description: Option<seq<u8>>,
    teleport: Option<Position>,
    duration: Option<u32>,
    charges: Option<u16>,
    children: seq<Item>)

  function BareItem(serverId: u16): Item {
    Item(serverId, 1, None, None, None, None, None, None, None, [])
  }

  // ----- attributes as values, and their bytes -----

  datatype Field = Byte8(b: u8) | Word(w: u16) | Long(l: u32) | Text(t: seq<u8>) | Place(p: Position)
  datatype Attr = Attr(code: u8, field: Field)

  /** Does an attribute code admit this kind of value? Unlisted codes admit none. */
  predicate Admits(code: u8, field: Field) {
    match field
    case Byte8(_) => code in {ATTR_RUNE_CHARGES, ATTR_COUNT, ATTR_HOUSE_DOOR_ID, ATTR_DECAYING_STATE,
                              ATTR_HIT_CHANCE, ATTR_SHOOT_RANGE}
    case Word(_) => code in {ATTR_ACTION_ID, ATTR_UNIQUE_ID, ATTR_CHARGES, ATTR_DEPOT_ID}
    case Long(_) => code in {ATTR_DURATION, ATTR_WRITTEN_DATE, ATTR_SLEEPER_GUID, ATTR_SLEEP_START,
                             ATTR_WEIGHT, ATTR_ATTACK, ATTR_DEFENSE, ATTR_EXTRA_DEFENSE, ATTR_ARMOR,
                             ATTR_DECAY_TO}
    case Text(_) => code in {ATTR_TEXT, ATTR_DESC, ATTR_WRITTEN_BY, ATTR_NAME, ATTR_ARTICLE,
                             ATTR_PLURAL_NAME}
    case Place(_) => code == ATTR_TELE_DEST
  }

  predicate LegalText(t: seq<u8>) {
    |t| <= MAX_STRING_BYTES && Utf8(t)
  }

  predicate Legal(a: Attr) {
    Admits(a.code, a.field) && (a.field.Text? ==> LegalText(a.field.t))
  }

  /** What an attribute does to the item it is read for; the codes not named only advance. */
  function Apply(item: Item, a: Attr): Item
    requires Legal(a)
  {
    if a.code == ATTR_ACTION_ID then item.(actionId := Some(a.field.w))
    else if a.code == ATTR_UNIQUE_ID then item.(uniqueId := Some(a.field.w))
    else if a.code == ATTR_TEXT then item.(text := Some(a.field.t))
    else if a.code == ATTR_DESC then item.(description := Some(a.field.t))
    else if a.code == ATTR_TELE_DEST then item.(teleport := Some(a.field.p))
    else if a.code == ATTR_RUNE_CHARGES then item.(charges := Some(a.field.b))
    else if a.code == ATTR_COUNT then item.(count := if a.field.b == 0 then 1 else a.field.b)
    else if a.code == ATTR_DURATION then item.(duration := Some(a.field.l))
    else if a.code == ATTR_CHARGES then item.(charges := Some(a.field.w))
    else item
  }

  predicate AllLegal(attrs: seq<Attr>) {
    forall a | a in attrs :: Legal(a)
  }

  function ApplyAll(item: Item, attrs: seq<Attr>): Item
    requires AllLegal(attrs)
    decreases |attrs|
  {
    if attrs == [] then item else ApplyAll(Apply(item, attrs[0]), attrs[1..])
  }

  /** Well-formed UTF-8 (Table 3-7 of the Unicode standard). */
  predicate Utf8(s: seq<u8>) {
    if s == [] then true
    else if s[0] < 0x80 then Utf8(s[1..])
    else if 0xC2 <= s[0] < 0xE0 then |s| >= 2 && Tail(s[1]) && Utf8(s[2..])
    else if 0xE0 <= s[0] < 0xF0 then
      |s| >= 3 && Tail(s[1]) && Tail(s[2])
      && (s[0] == 0xE0 ==> s[1] >= 0xA0) && (s[0] == 0xED ==> s[1] < 0xA0) && Utf8(s[3..])
    else if 0xF0 <= s[0] < 0xF5 then
      |s| >= 4 && Tail(s[1]) && Tail(s[2]) && Tail(s[3])
      && (s[0] == 0xF0 ==> s[1] >= 0x90) && (s[0] == 0xF4 ==> s[1] < 0x90) && Utf8(s[4..])
    else false
  }

  predicate Tail(b: u8) {
    0x80 <= b < 0xC0
  }

  function PutWord(w: u16): (s: seq<u8>)
    ensures |s| == 2
  {
    [w % 0x100, w / 0x100]
  }

  function PutLong(l: u32): (s: seq<u8>)
    ensures |s| == 4
  {
    PutWord(l % 0x1_0000) + PutWord(l / 0x1_0000)
  }

  function PutPosition(p: Position): seq<u8> {
    PutWord(p.x) + PutWord(p.y) + [p.z]
  }

  function PutText(t: seq<u8>): seq<u8>
    requires LegalText(t)
  {
    PutWord(|t|) + t
  }

  function PutField(f: Field): seq<u8>
    requires f.Text? ==> LegalText(f.t)
  {
    match f
    case Byte8(b) => [b]
    case Word(w) => PutWord(w)
    case Long(l) => PutLong(l)
    case Text(t) => PutText(t)
    case Place(p) => PutPosition(p)
  }

  function PutAttr(a: Attr): seq<u8>
    requires Legal(a)
  {
    [a.code] + PutField(a.field)
  }

  function PutAttrs(attrs: seq<Attr>): seq<u8>
    requires AllLegal(attrs)
  {
    if attrs == [] then [] else PutAttr(attrs[0]) + PutAttrs(attrs[1..])
  }

  // ----- the cursor -----

  /** What a successful read returns: the value and the unread rest. */
  datatype Got<+T> = Got(value: T, rest: seq<u8>)

  function GetByte(s: seq<u8>): Result<Got<u8>> {
    if |s| < 1 then Err else Ok(Got(s[0], s[1..]))
  }

  function LittleEndian16(lo: u8, hi: u8): u16 {
    lo as int + 0x100 * (hi as int)
  }

  function LittleEndian32(lo: u16, hi: u16): u32 {
    lo as int + 0x1_0000 * (hi as int)
  }

  function GetWord(s: seq<u8>): Result<Got<u16>> {
    if |s| < 2 then Err else Ok(Got(LittleEndian16(s[0], s[1]), s[2..]))
  }

  function GetLong(s: seq<u8>): Result<Got<u32>> {
    if |s| < 4 then Err
    else Ok(Got(LittleEndian32(LittleEndian16(s[0], s[1]), LittleEndian16(s[2], s[3])), s[4..]))
  }

  function GetPosition(s: seq<u8>): Result<Got<Position>> {
    if |s| < 5 then Err
    else Ok(Got(Position(LittleEndian16(s[0], s[1]), LittleEndian16(s[2], s[3]), s[4]), s[5..]))
  }

  function GetText(s: seq<u8>): Result<Got<seq<u8>>> {
    match GetWord(s)
    case Err => Err
    case Ok(Got(length, rest)) =>
      if length > MAX_STRING_BYTES || length > |rest| || !Utf8(rest[..length]) then Err
      else Ok(Got(rest[..length], rest[length..]))
  }

  /** Reads typed values from a byte sequence; every read moves the offset past its bytes. */
  class Cursor {
    const bytes: seq<u8>
    var offset: nat

    ghost predicate Valid()
      reads this
    {
      offset <= |bytes|
    }

    ghost function Rest(): seq<u8>
      requires Valid()
      reads this
    {
      bytes[offset..]
    }

    constructor (bytes: seq<u8>)
      ensures Valid() && this.bytes == bytes && Rest() == bytes
    {
      this.bytes := bytes;
      offset := 0;
    }

    /** A read either returns what `got` says and stops at its rest, or fails. */
    ghost predicate Reads<T>(r: Result<T>, got: Result<Got<T>>)
      reads this
    {
      && Valid()
      && (r.Err? <==> got.Err?)
      && (r.Ok? ==> got == Ok(Got(r.value, Rest())))
    }

    method ReadByte() returns (r: Result<u8>)
      requires Valid()
      modifies this
      ensures Reads(r, GetByte(old(Rest())))
    {
      if offset >= |bytes| {
        return Err;
      }
      r := Ok(bytes[offset]);
      offset := offset + 1;
    }

    method ReadWord() returns (r: Result<u16>)
      requires Valid()
      modifies this
      ensures Reads(r, GetWord(old(Rest())))
    {
      var end := offset + 2;
      if end > |bytes| {
        return Err;
      }
      r := Ok(LittleEndian16(bytes[offset], bytes[offset + 1]));
      offset := end;
    }

    method ReadLong() returns (r: Result<u32>)
      requires Valid()
      modifies this
      ensures Reads(r, GetLong(old(Rest())))
    {
      var end := offset + 4;
      if end > |bytes| {
        return Err;
      }
      r := Ok(LittleEndian32(LittleEndian16(bytes[offset], bytes[offset + 1]),
                             LittleEndian16(bytes[offset + 2], bytes[offset + 3])));
      offset := end;
    }

    method ReadPosition() returns (r: Result<Position>)
      requires Valid()
      modifies this
      ensures Reads(r, GetPosition(old(Rest())))
    {
      var x := ReadWord();
      if x.Err? { return Err; }
      var y := ReadWord();
      if y.Err? { return Err; }
      var z := ReadByte();
      if z.Err? { return Err; }
      r := Ok(Position(x.value, y.value, z.value));
    }

    method ReadText() returns (r: Result<seq<u8>>)
      requires Valid()
      modifies this
      ensures Reads(r, GetText(old(Rest())))
    {
      var length := ReadWord();
      if length.Err? || length.value > MAX_STRING_BYTES {
        return Err;
      }
      var end := offset + length.value;
      if end > |bytes| {
        return Err;
      }
      var text := bytes[offset..end];
      assert text == Rest()[..length.value];
      offset := end;
      if !Utf8(text) {
        return Err;
      }
      r := Ok(text);
    }
  }

  // ----- decoding as functions of the unread bytes -----

  /** Which kind of value follows an attribute code decides how it is read. */
  function GetField(code: u8, s: seq<u8>): Result<Got<Field>> {
    if Admits(code, Byte8(0)) then
      match GetByte(s) case Err => Err case Ok(Got(v, rest)) => Ok(Got(Byte8(v), rest))
    else if Admits(code, Word(0)) then
      match GetWord(s) case Err => Err case Ok(Got(v, rest)) => Ok(Got(Word(v), rest))
    else if Admits(code, Long(0)) then
      match GetLong(s) case Err => Err case Ok(Got(v, rest)) => Ok(Got(Long(v), rest))
    else if Admits(code, Text([])) then
      match GetText(s) case Err => Err case Ok(Got(v, rest)) => Ok(Got(Text(v), rest))
    else if Admits(code, Place(ORIGIN)) then
      match GetPosition(s) case Err => Err case Ok(Got(v, rest)) => Ok(Got(Place(v), rest))
    else Err
  }

  function GetAttr(s: seq<u8>): (r: Result<Got<Attr>>)
    ensures r.Ok? ==> |r.value.rest| < |s| && Legal(r.value.value)
  {
    if s == [] then Err else
      match GetField(s[0], s[1..]) case Err => Err case Ok(Got(f, rest)) => Ok(Got(Attr(s[0], f), rest))
  }

  /** Where an inline item ends inside a tile's property stream. */
  predicate AtBoundary(s: seq<u8>, inTile: bool) {
    s == [] || (inTile && (s[0] == ATTR_TILE_FLAGS || s[0] == ATTR_ITEM))
  }

  function GetAttrs(s: seq<u8>, item: Item, inTile: bool): (r: Result<Got<Item>>)
    ensures r.Ok? ==> |r.value.rest| <= |s|
    decreases |s|
  {
    if AtBoundary(s, inTile) then Ok(Got(item, s))
    else
      match GetAttr(s)
      case Err => Err
      case Ok(Got(a, rest)) => GetAttrs(rest, Apply(item, a), inTile)
  }

  function GetItem(s: seq<u8>, inTile: bool): (r: Result<Got<Item>>)
    ensures r.Ok? ==> |r.value.rest| < |s|
  {
    match GetWord(s) case Err => Err case Ok(Got(id, rest)) => GetAttrs(rest, BareItem(id), inTile)
  }

  /** One attribute of the payload loop: its code, then a value of the width that code has. */
  method ReadAttribute(cursor: Cursor, item: Item) returns (r: Result<Item>)
    requires cursor.Valid() && cursor.Rest() != []
    modifies cursor
    ensures cursor.Reads(r, match GetAttr(old(cursor.Rest()))
                            case Err => Err
                            case Ok(Got(a, rest)) => Ok(Got(Apply(item, a), rest)))
  {
    var code := cursor.bytes[cursor.offset];
    cursor.offset := cursor.offset + 1;
    assert cursor.Rest() == old(cursor.Rest())[1..];
    if code == ATTR_RUNE_CHARGES || code == ATTR_COUNT || code == ATTR_HOUSE_DOOR_ID
       || code == ATTR_DECAYING_STATE || code == ATTR_HIT_CHANCE || code == ATTR_SHOOT_RANGE {
      var v := cursor.ReadByte();
      if v.Err? { return Err; }
      r := Ok(if code == ATTR_RUNE_CHARGES then item.(charges := Some(v.value))
              else if code == ATTR_COUNT then item.(count := if v.value == 0 then 1 else v.value)
              else item);
    } else if code == ATTR_ACTION_ID || code == ATTR_UNIQUE_ID || code == ATTR_CHARGES
              || code == ATTR_DEPOT_ID {
      var v := cursor.ReadWord();
      if v.Err? { return Err; }
      r := Ok(if code == ATTR_ACTION_ID then item.(actionId := Some(v.value))
              else if code == ATTR_UNIQUE_ID then item.(uniqueId := Some(v.value))
              else if code == ATTR_CHARGES then item.(charges := Some(v.value))
              else item);
    } else if code == ATTR_DURATION || code == ATTR_WRITTEN_DATE || code == ATTR_SLEEPER_GUID
              || code == ATTR_SLEEP_START || code == ATTR_WEIGHT || code == ATTR_ATTACK
              || code == ATTR_DEFENSE || code == ATTR_EXTRA_DEFENSE || code == ATTR_ARMOR
              || code == ATTR_DECAY_TO {
      var v := cursor.ReadLong();
      if v.Err? { return Err; }
      r := Ok(if code == ATTR_DURATION then item.(duration := Some(v.value)) else item);
    } else if code == ATTR_TEXT || code == ATTR_DESC || code == ATTR_WRITTEN_BY
              || code == ATTR_NAME || code == ATTR_ARTICLE || code == ATTR_PLURAL_NAME {
      var v := cursor.ReadText();
      if v.Err? { return Err; }
      r := Ok(if code == ATTR_TEXT then item.(text := Some(v.value))
              else if code == ATTR_DESC then item.(description := Some(v.value))
              else item);
    } else if code == ATTR_TELE_DEST {
      var v := cursor.ReadPosition();
      if v.Err? { return Err; }
      r := Ok(item.(teleport := Some(v.value)));
    } else {
      return Err;
    }
  }

  /** The payload loop of the source. */
  method ParseItemPayload(cursor: Cursor, stopAtTileAttribute: bool) returns (r: Result<Item>)
    requires cursor.Valid()
    modifies cursor
    ensures cursor.Reads(r, GetItem(old(cursor.Rest()), stopAtTileAttribute))
  {
    var id := cursor.ReadWord();
    if id.Err? {
      return Err;
    }
    var item := BareItem(id.value);
    while cursor.offset < |cursor.bytes|
      invariant cursor.Valid()
      invariant GetAttrs(cursor.Rest(), item, stopAtTileAttribute)
             == GetItem(old(cursor.Rest()), stopAtTileAttribute)
      decreases |cursor.bytes| - cursor.offset
    {
      var code := cursor.bytes[cursor.offset];
      if stopAtTileAttribute && (code == ATTR_TILE_FLAGS || code == ATTR_ITEM) {
        break;
      }
      var next := ReadAttribute(cursor, item);
      if next.Err? {
        return Err;
      }
      item := next.value;
    }
    r := Ok(item);
  }

  // ----- reading inverts writing, attribute by attribute -----

  lemma GetPutWord(w: u16, rest: seq<u8>)
    ensures GetWord(PutWord(w) + rest) == Ok(Got(w, rest))
  {
  }

  lemma PutGetWord(s: seq<u8>)
    requires GetWord(s).Ok?
    ensures s == PutWord(GetWord(s).value.value) + GetWord(s).value.rest
  {
  }

  lemma GetPutLong(l: u32, rest: seq<u8>)
    ensures GetLong(PutLong(l) + rest) == Ok(Got(l, rest))
  {
    var s := PutLong(l) + rest;
    assert s[..4] == PutLong(l) && s[4..] == rest;
  }

  lemma PutGetLong(s: seq<u8>)
    requires GetLong(s).Ok?
    ensures s == PutLong(GetLong(s).value.value) + GetLong(s).value.rest
  {
    var lo, hi := LittleEndian16(s[0], s[1]), LittleEndian16(s[2], s[3]);
    assert PutWord(lo) == s[..2] && PutWord(hi) == s[2..4];
    assert LittleEndian32(lo, hi) % 0x1_0000 == lo && LittleEndian32(lo, hi) / 0x1_0000 == hi;
  }

  lemma GetPutPosition(p: Position, rest: seq<u8>)
    ensures GetPosition(PutPosition(p) + rest) == Ok(Got(p, rest))
  {
    var s := PutPosition(p) + rest;
    assert s[..2] == PutWord(p.x) && s[2..4] == PutWord(p.y) && s[5..] == rest;
  }

  lemma PutGetPosition(s: seq<u8>)
    requires GetPosition(s).Ok?
    ensures s == PutPosition(GetPosition(s).value.value) + GetPosition(s).value.rest
  {
    assert PutWord(LittleEndian16(s[0], s[1])) == s[..2] && PutWord(LittleEndian16(s[2], s[3])) == s[2..4];
  }

  lemma PutGetText(s: seq<u8>)
    requires GetText(s).Ok?
    ensures LegalText(GetText(s).value.value)
    ensures s == PutText(GetText(s).value.value) + GetText(s).value.rest
  {
    var t := GetText(s).value.value;
    PutGetWord(s);
    var after := GetWord(s).value.rest;
    assert after == after[..|t|] + after[|t|..];
  }

  lemma GetPutField(code: u8, f: Field, rest: seq<u8>)
    requires Admits(code, f) && (f.Text? ==> LegalText(f.t))
    ensures GetField(code, PutField(f) + rest) == Ok(Got(f, rest))
  {
    match f
    case Byte8(_) =>
    case Word(w) => GetPutWord(w, rest);
    case Long(l) => GetPutLong(l, rest);
    case Text(t) =>
      assert PutText(t) + rest == PutWord(|t|) + (t + rest);
      GetPutWord(|t|, t + rest);
      assert (t + rest)[..|t|] == t && (t + rest)[|t|..] == rest;
    case Place(p) => GetPutPosition(p, rest);
  }

  lemma PutGetField(code: u8, s: seq<u8>)
    requires GetField(code, s).Ok?
    ensures var Got(f, rest) := GetField(code, s).value;
      Admits(code, f) && (f.Text? ==> LegalText(f.t)) && s == PutField(f) + rest
  {
    match GetField(code, s).value.value
    case Byte8(_) =>
    case Word(_) => PutGetWord(s);
    case Long(_) => PutGetLong(s);
    case Text(_) => PutGetText(s);
    case Place(_) => PutGetPosition(s);
  }

  lemma GetPutAttr(a: Attr, rest: seq<u8>)
    requires Legal(a)
    ensures GetAttr(PutAttr(a) + rest) == Ok(Got(a, rest))
  {
    assert (PutAttr(a) + rest)[1..] == PutField(a.field) + rest;
    GetPutField(a.code, a.field, rest);
  }

  lemma PutGetAttr(s: seq<u8>)
    requires GetAttr(s).Ok?
    ensures s == PutAttr(GetAttr(s).value.value) + GetAttr(s).value.rest
  {
    PutGetField(s[0], s[1..]);
    assert s == [s[0]] + s[1..];
  }

  /** No attribute an item may carry is mistaken for the start of the next tile property. */
  lemma {:induction false} GetPutAttrs(attrs: seq<Attr>, rest: seq<u8>, item: Item, inTile: bool)
    requires AllLegal(attrs) && AtBoundary(rest, inTile)
    ensures GetAttrs(PutAttrs(attrs) + rest, item, inTile) == Ok(Got(ApplyAll(item, attrs), rest))
    decreases |attrs|
  {
    if attrs == [] {
      assert PutAttrs(attrs) + rest == rest;
    } else {
      var tail := PutAttrs(attrs[1..]) + rest;
      assert PutAttrs(attrs) + rest == PutAttr(attrs[0]) + tail;
      GetPutAttr(attrs[0], tail);
      GetPutAttrs(attrs[1..], rest, Apply(item, attrs[0]), inTile);
    }
  }

  lemma {:induction false} PutGetAttrs(s: seq<u8>, item: Item, inTile: bool) returns (attrs: seq<Attr>)
    requires GetAttrs(s, item, inTile).Ok?
    ensures AllLegal(attrs)
    ensures var Got(result, rest) := GetAttrs(s, item, inTile).value;
      result == ApplyAll(item, attrs) && s == PutAttrs(attrs) + rest && AtBoundary(rest, inTile)
    decreases |s|
  {
    if AtBoundary(s, inTile) {
      attrs := [];
      assert PutAttrs(attrs) + s == s;
    } else {
      var Got(a, more) := GetAttr(s).value;
      var Got(result, rest) := GetAttrs(s, item, inTile).value;
      assert GetAttrs(more, Apply(item, a), inTile) == Ok(Got(result, rest));
      PutGetAttr(s);
      var tail := PutGetAttrs(more, Apply(item, a), inTile);
      attrs := [a] + tail;
      OneInFront(a, tail, item, rest);
    }
  }

  lemma OneInFront(a: Attr, tail: seq<Attr>, item: Item, rest: seq<u8>)
    requires Legal(a) && AllLegal(tail)
    ensures AllLegal([a] + tail)
    ensures PutAttrs([a] + tail) + rest == PutAttr(a) + (PutAttrs(tail) + rest)
    ensures ApplyAll(item, [a] + tail) == ApplyAll(Apply(item, a), tail)
  {
    assert ([a] + tail)[1..] == tail;
    Assoc(PutAttr(a), PutAttrs(tail), rest);
  }

  /** Skipped attributes move the cursor and nothing else. */
  predicate Kept(a: Attr) {
    a.code in {ATTR_ACTION_ID, ATTR_UNIQUE_ID, ATTR_TEXT, ATTR_DESC, ATTR_TELE_DEST,
               ATTR_RUNE_CHARGES, ATTR_COUNT, ATTR_DURATION, ATTR_CHARGES}
  }

  function KeptOf(attrs: seq<Attr>): (kept: seq<Attr>)
    ensures AllLegal(attrs) ==> AllLegal(kept)
  {
    if attrs == [] then []
    else if Kept(attrs[0]) then [attrs[0]] + KeptOf(attrs[1..])
    else KeptOf(attrs[1..])
  }

  lemma {:induction false} SkippedAttributesDoNotMatter(attrs: seq<Attr>, item: Item)
    requires AllLegal(attrs)
    ensures ApplyAll(item, attrs) == ApplyAll(item, KeptOf(attrs))
    decreases |attrs|
  {
    if attrs != [] {
      SkippedAttributesDoNotMatter(attrs[1..], Apply(item, attrs[0]));
    }
  }

  // ----- tiles -----

  /** One property of a tile: its flags, or an item written in line. */
  datatype TileProp = Flags(flags: u32) | Inline(id: u16, attrs: seq<Attr>)

  predicate LegalProp(p: TileProp) {
    p.Inline? ==> AllLegal(p.attrs)
  }

  predicate LegalProps(props: seq<TileProp>) {
    forall p | p in props :: LegalProp(p)
  }

  function PutProp(p: TileProp): (s: seq<u8>)
    requires LegalProp(p)
    ensures s != [] && AtBoundary(s, true)
  {
    match p
    case Flags(flags) => [ATTR_TILE_FLAGS] + PutLong(flags)
    case Inline(id, attrs) => [ATTR_ITEM] + (PutWord(id) + PutAttrs(attrs))
  }

  function PutProps(props: seq<TileProp>): (s: seq<u8>)
    requires LegalProps(props)
    ensures AtBoundary(s, true)
  {
    if props == [] then [] else PutProp(props[0]) + PutProps(props[1..])
  }

  /** What a tile has gathered so far. */
  datatype Tile = Tile(flags: u32, items: seq<Item>)

  function AddProp(tile: Tile, p: TileProp): Tile
    requires LegalProp(p)
  {
    match p
    case Flags(flags) => tile.(flags := flags)
    case Inline(id, attrs) => tile.(items := tile.items + [ApplyAll(BareItem(id), attrs)])
  }

  function AddProps(tile: Tile, props: seq<TileProp>): Tile
    requires LegalProps(props)
    decreases |props|
  {
    if props == [] then tile else AddProps(AddProp(tile, props[0]), props[1..])
  }

  /** The property loop of a tile as a function of the unread bytes. */
  function GetProps(s: seq<u8>, tile: Tile): Result<Tile>
    decreases |s|
  {
    if s == [] then Ok(tile)
    else if s[0] == ATTR_TILE_FLAGS then
      match GetLong(s[1..])
      case Err => Err
      case Ok(Got(flags, rest)) => GetProps(rest, tile.(flags := flags))
    else if s[0] == ATTR_ITEM then
      match GetItem(s[1..], true)
      case Err => Err
      case Ok(Got(item, rest)) => GetProps(rest, tile.(items := tile.items + [item]))
    else Err
  }

  /** The property loop of the source. */
  method ParseTileProperties(cursor: Cursor) returns (r: Result<Tile>)
    requires cursor.Valid()
    modifies cursor
    ensures r == GetProps(old(cursor.Rest()), Tile(0, []))
  {
    var tile := Tile(0, []);
    while cursor.offset < |cursor.bytes|
      invariant cursor.Valid()
      invariant GetProps(cursor.Rest(), tile) == GetProps(old(cursor.Rest()), Tile(0, []))
      decreases |cursor.bytes| - cursor.offset
    {
      ghost var unread := cursor.Rest();
      var attribute := cursor.bytes[cursor.offset];
      cursor.offset := cursor.offset + 1;
      assert cursor.Rest() == unread[1..];
      if attribute == ATTR_TILE_FLAGS {
        var flags := cursor.ReadLong();
        if flags.Err? {
          return Err;
        }
        tile := tile.(flags := flags.value);
      } else if attribute == ATTR_ITEM {
        var item := ParseItemPayload(cursor, true);
        if item.Err? {
          return Err;
        }
        tile := tile.(items := tile.items + [item.value]);
      } else {
        return Err;
      }
    }
    r := Ok(tile);
  }

  lemma GetPutFlags(flags: u32, rest: seq<u8>, tile: Tile)
    ensures GetProps(PutProp(Flags(flags)) + rest, tile) == GetProps(rest, AddProp(tile, Flags(flags)))
  {
    var s := PutProp(Flags(flags)) + rest;
    assert s[1..] == PutLong(flags) + rest;
    GetPutLong(flags, rest);
  }

  lemma GetPutItem(id: u16, attrs: seq<Attr>, rest: seq<u8>)
    requires AllLegal(attrs) && AtBoundary(rest, true)
    ensures GetItem(PutWord(id) + PutAttrs(attrs) + rest, true) == Ok(Got(ApplyAll(BareItem(id), attrs), rest))
  {
    var payload := PutAttrs(attrs) + rest;
    assert PutWord(id) + PutAttrs(attrs) + rest == PutWord(id) + payload;
    GetPutWord(id, payload);
    GetPutAttrs(attrs, rest, BareItem(id), true);
  }

  lemma {:induction false} GetPutInline(id: u16, attrs: seq<Attr>, rest: seq<u8>, tile: Tile)
    requires AllLegal(attrs) && AtBoundary(rest, true)
    ensures GetProps(PutProp(Inline(id, attrs)) + rest, tile) == GetProps(rest, AddProp(tile, Inline(id, attrs)))
  {
    var s := PutProp(Inline(id, attrs)) + rest;
    var payload := PutWord(id) + PutAttrs(attrs);
    assert LegalProp(Inline(id, attrs)) && s == [ATTR_ITEM] + payload + rest;
    assert s[1..] == payload + rest;
    GetPutItem(id, attrs, rest);
  }

  lemma {:induction false} GetPutProps(props: seq<TileProp>, tile: Tile)
    requires LegalProps(props)
    ensures GetProps(PutProps(props), tile) == Ok(AddProps(tile, props))
    decreases |props|
  {
    if props != [] {
      match props[0] {
        case Flags(flags) => GetPutFlags(flags, PutProps(props[1..]), tile);
        case Inline(id, attrs) =>
          assert LegalProp(props[0]);
          GetPutInline(id, attrs, PutProps(props[1..]), tile);
      }
      GetPutProps(props[1..], AddProp(tile, props[0]));
    }
  }

  lemma PutGetItem(s: seq<u8>) returns (id: u16, attrs: seq<Attr>)
    requires GetItem(s, true).Ok?
    ensures AllLegal(attrs)
    ensures var Got(item, rest) := GetItem(s, true).value;
      item == ApplyAll(BareItem(id), attrs) && s == PutWord(id) + PutAttrs(attrs) + rest
  {
    id := GetWord(s).value.value;
    var payload := GetWord(s).value.rest;
    PutGetWord(s);
    attrs := PutGetAttrs(payload, BareItem(id), true);
    var rest := GetAttrs(payload, BareItem(id), true).value.rest;
    assert PutWord(id) + (PutAttrs(attrs) + rest) == PutWord(id) + PutAttrs(attrs) + rest;
  }

  lemma PutGetProp(s: seq<u8>, tile: Tile) returns (p: TileProp, rest: seq<u8>)
    requires s != [] && GetProps(s, tile).Ok?
    ensures LegalProp(p) && |rest| < |s|
    ensures s == PutProp(p) + rest && GetProps(s, tile) == GetProps(rest, AddProp(tile, p))
  {
    assert s == [s[0]] + s[1..];
    if s[0] == ATTR_TILE_FLAGS {
      var got := GetLong(s[1..]).value;
      p, rest := Flags(got.value), got.rest;
      PutGetLong(s[1..]);
    } else {
      var id, attrs := PutGetItem(s[1..]);
      p, rest := Inline(id, attrs), GetItem(s[1..], true).value.rest;
    }
  }

  lemma {:induction false} PutGetProps(s: seq<u8>, tile: Tile) returns (props: seq<TileProp>)
    requires GetProps(s, tile).Ok?
    ensures LegalProps(props)
    ensures s == PutProps(props) && GetProps(s, tile) == Ok(AddProps(tile, props))
    decreases |s|
  {
    if s == [] {
      props := [];
    } else {
      var p, rest := PutGetProp(s, tile);
      var tail := PutGetProps(rest, AddProp(tile, p));
      props := [p] + tail;
      assert props[1..] == tail;
    }
  }

  // ----- item nodes -----

  /** An item written as a node of its own: attributes in its properties, content as child nodes. */
  datatype ItemTree = ItemTree(id: u16, attrs: seq<Attr>, content: seq<ItemTree>)

  predicate LegalTree(t: ItemTree)
    decreases t
  {
    AllLegal(t.attrs) && LegalTrees(t.content)
  }

  predicate LegalTrees(ts: seq<ItemTree>)
    decreases ts
  {
    ts == [] || (LegalTree(ts[0]) && LegalTrees(ts[1..]))
  }

  function NodeOf(t: ItemTree): Node
    requires LegalTree(t)
    decreases t
  {
    Node(ITEM, PutWord(t.id) + PutAttrs(t.attrs), NodesOf(t.content))
  }

  function NodesOf(ts: seq<ItemTree>): seq<Node>
    requires LegalTrees(ts)
    decreases ts
  {
    if ts == [] then [] else [NodeOf(ts[0])] + NodesOf(ts[1..])
  }

  function ItemOf(t: ItemTree): Item
    requires LegalTree(t)
    decreases t
  {
    ApplyAll(BareItem(t.id), t.attrs).(children := ItemsOf(t.content))
  }

  function ItemsOf(ts: seq<ItemTree>): seq<Item>
    requires LegalTrees(ts)
    decreases ts
  {
    if ts == [] then [] else [ItemOf(ts[0])] + ItemsOf(ts[1..])
  }

  /** The recursive node decoder as a function. */
  function GetItemNode(n: Node): Result<Item>
    decreases n
  {
    match GetItem(n.props, false)
    case Err => Err
    case Ok(Got(item, _)) =>
      match GetItemNodes(n.children)
      case Err => Err
      case Ok(content) => Ok(item.(children := content))
  }

  function GetItemNodes(ns: seq<Node>): Result<seq<Item>>
    decreases ns
  {
    if ns == [] then Ok([])
    else if ns[0].kind != ITEM then Err
    else
      match GetItemNode(ns[0])
      case Err => Err
      case Ok(item) =>
        match GetItemNodes(ns[1..])
        case Err => Err
        case Ok(items) => Ok([item] + items)
  }

  /** The source's recursion over nested item nodes. */
  method ParseItemNode(node: Node) returns (r: Result<Item>)
    ensures r == GetItemNode(node)
    decreases node
  {
    var cursor := new Cursor(node.props);
    var payload := ParseItemPayload(cursor, false);
    if payload.Err? {
      return Err;
    }
    var content := ParseItemNodes(node.children);
    if content.Err? {
      return Err;
    }
    r := Ok(payload.value.(children := content.value));
  }

  /** The child loop, shared by nested items and tiles. */
  method ParseItemNodes(nodes: seq<Node>) returns (r: Result<seq<Item>>)
    ensures r == GetItemNodes(nodes)
    decreases nodes
  {
    var items: seq<Item> := [];
    assert nodes[0..] == nodes;
    for i := 0 to |nodes|
      invariant Joined(items, GetItemNodes(nodes[i..])) == GetItemNodes(nodes)
    {
      ghost var rest := nodes[i..];
      assert rest[0] == nodes[i] && rest[1..] == nodes[i + 1..];
      if nodes[i].kind != ITEM {
        return Err;
      }
      var item := ParseItemNode(nodes[i]);
      if item.Err? {
        return Err;
      }
      JoinedStep(items, item.value, GetItemNodes(nodes[i + 1..]));
      items := items + [item.value];
    }
    r := Ok(items);
  }

  lemma {:induction false} GetPutItemNode(t: ItemTree)
    requires LegalTree(t)
    ensures GetItemNode(NodeOf(t)) == Ok(ItemOf(t))
    decreases t
  {
    var payload := PutAttrs(t.attrs);
    GetPutWord(t.id, payload);
    GetPutAttrs(t.attrs, [], BareItem(t.id), false);
    assert payload + [] == payload;
    GetPutItemNodes(t.content);
  }

  lemma {:induction false} GetPutItemNodes(ts: seq<ItemTree>)
    requires LegalTrees(ts)
    ensures GetItemNodes(NodesOf(ts)) == Ok(ItemsOf(ts))
    decreases ts
  {
    if ts != [] {
      GetPutItemNode(ts[0]);
      GetPutItemNodes(ts[1..]);
    }
  }

  lemma {:induction false} PutGetItemNode(n: Node) returns (t: ItemTree)
    requires n.kind == ITEM && GetItemNode(n).Ok?
    ensures LegalTree(t) && NodeOf(t) == n && Ok(ItemOf(t)) == GetItemNode(n)
    decreases n
  {
    var Got(id, payload) := GetWord(n.props).value;
    PutGetWord(n.props);
    var attrs := PutGetAttrs(payload, BareItem(id), false);
    var content := PutGetItemNodes(n.children);
    t := ItemTree(id, attrs, content);
    assert PutAttrs(attrs) + [] == PutAttrs(attrs);
  }

  lemma {:induction false} PutGetItemNodes(ns: seq<Node>) returns (ts: seq<ItemTree>)
    requires GetItemNodes(ns).Ok?
    ensures LegalTrees(ts) && NodesOf(ts) == ns && Ok(ItemsOf(ts)) == GetItemNodes(ns)
    decreases ns
  {
    if ns == [] {
      ts := [];
    } else {
      var t := PutGetItemNode(ns[0]);
      var tail := PutGetItemNodes(ns[1..]);
      ts := [t] + tail;
      assert ts[1..] == tail;
    }
  }

  // ----- tile nodes and tile areas -----

  /** A tile as the loader records it. */
  datatype PlacedTile = PlacedTile(position: Position, house: Option<u32>, flags: u32, items: seq<Item>)

  /** A tile as a map writer sees it. */
  datatype WrittenTile = WrittenTile(dx: u8, dy: u8, house: Option<u32>, props: seq<TileProp>, content: seq<ItemTree>)

  predicate LegalTile(t: WrittenTile, base: Position) {
    && base.x + t.dx <= U16_MAX && base.y + t.dy <= U16_MAX
    && (t.house.Some? ==> t.house.value != 0)
    && LegalProps(t.props) && LegalTrees(t.content)
    && |AddProps(Tile(0, []), t.props).items| + |ItemsOf(t.content)| <= MAX_ITEMS_PER_TILE
  }

  function TileNode(t: WrittenTile): Node
    requires LegalProps(t.props) && LegalTrees(t.content)
  {
    Node(if t.house.Some? then HOUSE_TILE else TILE, PutPlace(t) + PutProps(t.props), NodesOf(t.content))
  }

  function PlaceTile(t: WrittenTile, base: Position): PlacedTile
    requires LegalTile(t, base)
  {
    var tile := AddProps(Tile(0, []), t.props);
    PlacedTile(Position(base.x + t.dx, base.y + t.dy, base.z), t.house, tile.flags, tile.items + ItemsOf(t.content))
  }

  function GetHouse(kind: u8, s: seq<u8>): Result<Got<Option<u32>>> {
    if kind == HOUSE_TILE then
      match GetLong(s) case Err => Err case Ok(Got(house, rest)) => Ok(Got(Some(house), rest))
    else Ok(Got(None, s))
  }

  /** The tile's coordinates: two offsets from the area's base. */
  function GetCorner(s: seq<u8>, base: Position): Result<Got<Position>> {
    if |s| < 2 || base.x + s[0] > U16_MAX || base.y + s[1] > U16_MAX then Err
    else Ok(Got(Position(base.x + s[0], base.y + s[1], base.z), s[2..]))
  }

  /** The tile decoder as a function: where the tile is, then what lies on it. */
  function GetTile(n: Node, base: Position): Result<PlacedTile> {
    match GetCorner(n.props, base)
    case Err => Err
    case Ok(Got(position, s)) =>
      match GetHouse(n.kind, s)
      case Err => Err
      case Ok(Got(house, rest)) => GetContent(position, house, rest, n.children)
  }

  function GetContent(position: Position, house: Option<u32>, s: seq<u8>, children: seq<Node>): Result<PlacedTile> {
    match GetProps(s, Tile(0, []))
    case Err => Err
    case Ok(tile) =>
      match GetItemNodes(children)
      case Err => Err
      case Ok(items) =>
        if |tile.items| + |items| > MAX_ITEMS_PER_TILE || house == Some(0) then Err
        else Ok(PlacedTile(position, house, tile.flags, tile.items + items))
  }

  method ReadCorner(cursor: Cursor, base: Position) returns (r: Result<Position>)
    requires cursor.Valid()
    modifies cursor
    ensures cursor.Reads(r, GetCorner(old(cursor.Rest()), base))
  {
    var dx := cursor.ReadByte();
    if dx.Err? || base.x + dx.value > U16_MAX {
      return Err;
    }
    var dy := cursor.ReadByte();
    if dy.Err? || base.y + dy.value > U16_MAX {
      return Err;
    }
    r := Ok(Position(base.x + dx.value, base.y + dy.value, base.z));
  }

  method ReadHouse(cursor: Cursor, kind: u8) returns (r: Result<Option<u32>>)
    requires cursor.Valid()
    modifies cursor
    ensures cursor.Reads(r, GetHouse(kind, old(cursor.Rest())))
  {
    r := Ok(None);
    if kind == HOUSE_TILE {
      var id := cursor.ReadLong();
      r := if id.Err? then Err else Ok(Some(id.value));
    }
  }

  /** The tile decoder of the source, up to handing the tile to the map. */
  method ParseTile(node: Node, base: Position) returns (r: Result<PlacedTile>)
    ensures r == GetTile(node, base)
  {
    var cursor := new Cursor(node.props);
    var position := ReadCorner(cursor, base);
    if position.Err? {
      return Err;
    }
    var house := ReadHouse(cursor, node.kind);
    if house.Err? {
      return Err;
    }
    var tile := ParseTileProperties(cursor);
    if tile.Err? {
      return Err;
    }
    var content := ParseItemNodes(node.children);
    if content.Err? {
      return Err;
    }
    var items := tile.value.items + content.value;
    if |items| > MAX_ITEMS_PER_TILE || house.value == Some(0) {
      return Err;
    }
    r := Ok(PlacedTile(position.value, house.value, tile.value.flags, items));
  }

  /**
   * The tile decoder accepts exactly the written tiles: it answers `placed` if and only if the node
   * is the writing of a legal tile that stands for `placed`.
   */
  lemma DecodesExactlyTheWrittenTiles(n: Node, base: Position, placed: PlacedTile)
    requires n.kind in {TILE, HOUSE_TILE}
    ensures GetTile(n, base) == Ok(placed)
       <==> exists t :: LegalTile(t, base) && TileNode(t) == n && PlaceTile(t, base) == placed
  {
    if GetTile(n, base) == Ok(placed) {
      var t := PutGetTile(n, base);
    }
    forall t | LegalTile(t, base) && TileNode(t) == n
      ensures GetTile(n, base) == Ok(PlaceTile(t, base))
    {
      GetPutTile(t, base);
    }
  }

  /** The fixed part of a tile's properties: two offsets and, on a house tile, the house. */
  function PutPlace(t: WrittenTile): seq<u8> {
    [t.dx, t.dy] + (if t.house.Some? then PutLong(t.house.value) else [])
  }

  lemma GetPutPlace(t: WrittenTile, base: Position, rest: seq<u8>)
    requires base.x + t.dx <= U16_MAX && base.y + t.dy <= U16_MAX
    ensures var s := PutPlace(t) + rest;
      && GetCorner(s, base) == Ok(Got(Position(base.x + t.dx, base.y + t.dy, base.z), s[2..]))
      && GetHouse(if t.house.Some? then HOUSE_TILE else TILE, s[2..]) == Ok(Got(t.house, rest))
  {
    var s := PutPlace(t) + rest;
    assert s[0] == t.dx && s[1] == t.dy;
    if t.house.Some? {
      assert s[2..] == PutLong(t.house.value) + rest;
      GetPutLong(t.house.value, rest);
    } else {
      assert s[2..] == rest;
    }
  }

  lemma GetPutContent(t: WrittenTile, base: Position)
    requires LegalTile(t, base)
    ensures GetContent(PlaceTile(t, base).position, t.house, PutProps(t.props), NodesOf(t.content))
         == Ok(PlaceTile(t, base))
  {
    GetPutProps(t.props, Tile(0, []));
    GetPutItemNodes(t.content);
  }

  lemma GetPutTile(t: WrittenTile, base: Position)
    requires LegalTile(t, base)
    ensures GetTile(TileNode(t), base) == Ok(PlaceTile(t, base))
  {
    var rest, position := PutProps(t.props), PlaceTile(t, base).position;
    GetPutPlace(t, base, rest);
    GetPutContent(t, base);
    HeadThenContent(TileNode(t), base, position, t.house, rest);
  }

  lemma HeadThenContent(n: Node, base: Position, position: Position, house: Option<u32>, rest: seq<u8>)
    requires |n.props| >= 2 && GetCorner(n.props, base) == Ok(Got(position, n.props[2..]))
    requires GetHouse(n.kind, n.props[2..]) == Ok(Got(house, rest))
    ensures GetTile(n, base) == GetContent(position, house, rest, n.children)
  {
  }

  lemma PutGetPlace(kind: u8, s: seq<u8>, base: Position) returns (t: WrittenTile, rest: seq<u8>)
    requires kind in {TILE, HOUSE_TILE}
    requires GetCorner(s, base).Ok? && GetHouse(kind, s[2..]).Ok?
    ensures rest == GetHouse(kind, s[2..]).value.rest && t.house == GetHouse(kind, s[2..]).value.value
    ensures base.x + t.dx <= U16_MAX && base.y + t.dy <= U16_MAX
    ensures kind == if t.house.Some? then HOUSE_TILE else TILE
    ensures s == PutPlace(t) + rest
  {
    var house := GetHouse(kind, s[2..]).value.value;
    rest := GetHouse(kind, s[2..]).value.rest;
    if kind == HOUSE_TILE {
      PutGetLong(s[2..]);
    }
    t := WrittenTile(s[0], s[1], house, [], []);
    assert s == [s[0], s[1]] + s[2..];
  }

  lemma PutGetContent(position: Position, house: Option<u32>, s: seq<u8>, children: seq<Node>)
    returns (props: seq<TileProp>, content: seq<ItemTree>)
    requires GetContent(position, house, s, children).Ok?
    ensures LegalProps(props) && LegalTrees(content) && house != Some(0)
    ensures s == PutProps(props) && children == NodesOf(content)
    ensures var tile := AddProps(Tile(0, []), props);
      && |tile.items| + |ItemsOf(content)| <= MAX_ITEMS_PER_TILE
      && GetContent(position, house, s, children)
         == Ok(PlacedTile(position, house, tile.flags, tile.items + ItemsOf(content)))
  {
    props := PutGetProps(s, Tile(0, []));
    content := PutGetItemNodes(children);
  }

  lemma PutGetTile(n: Node, base: Position) returns (t: WrittenTile)
    requires n.kind in {TILE, HOUSE_TILE} && GetTile(n, base).Ok?
    ensures LegalTile(t, base) && TileNode(t) == n && Ok(PlaceTile(t, base)) == GetTile(n, base)
  {
    var place, rest := PutGetPlace(n.kind, n.props, base);
    var position := GetCorner(n.props, base).value.value;
    var props, content := PutGetContent(position, place.house, rest, n.children);
    t := place.(props := props, content := content);
    assert PutPlace(t) == PutPlace(place);
  }

  predicate LegalTiles(ts: seq<WrittenTile>, base: Position) {
    forall t | t in ts :: LegalTile(t, base)
  }

  function AreaNode(base: Position, ts: seq<WrittenTile>): Node
    requires LegalTiles(ts, base)
  {
    Node(TILE_AREA, PutPosition(base), TileNodes(ts, base))
  }

  function TileNodes(ts: seq<WrittenTile>, base: Position): seq<Node>
    requires LegalTiles(ts, base)
  {
    if ts == [] then [] else assert LegalTile(ts[0], base); [TileNode(ts[0])] + TileNodes(ts[1..], base)
  }

  function PlaceTiles(ts: seq<WrittenTile>, base: Position): seq<PlacedTile>
    requires LegalTiles(ts, base)
  {
    if ts == [] then [] else [PlaceTile(ts[0], base)] + PlaceTiles(ts[1..], base)
  }

  /** The tiles of an area in order; any bad tile fails the whole area. */
  function GetTiles(ns: seq<Node>, base: Position): Result<seq<PlacedTile>> {
    if ns == [] then Ok([])
    else if ns[0].kind !in {TILE, HOUSE_TILE} then Err
    else
      match GetTile(ns[0], base)
      case Err => Err
      case Ok(tile) =>
        match GetTiles(ns[1..], base)
        case Err => Err
        case Ok(tiles) => Ok([tile] + tiles)
  }

  function GetArea(n: Node): Result<seq<PlacedTile>> {
    match GetPosition(n.props)
    case Err => Err
    case Ok(Got(base, rest)) => if rest != [] then Err else GetTiles(n.children, base)
  }

  method ParseTileArea(node: Node) returns (r: Result<seq<PlacedTile>>)
    ensures r == GetArea(node)
  {
    var cursor := new Cursor(node.props);
    var base := cursor.ReadPosition();
    if base.Err? || cursor.offset != |cursor.bytes| {
      return Err;
    }
    var tiles: seq<PlacedTile> := [];
    assert node.children[0..] == node.children;
    for i := 0 to |node.children|
      invariant Joined(tiles, GetTiles(node.children[i..], base.value)) == GetTiles(node.children, base.value)
    {
      ghost var rest := node.children[i..];
      assert rest[0] == node.children[i] && rest[1..] == node.children[i + 1..];
      if node.children[i].kind != TILE && node.children[i].kind != HOUSE_TILE {
        return Err;
      }
      var tile := ParseTile(node.children[i], base.value);
      if tile.Err? {
        return Err;
      }
      JoinedStep(tiles, tile.value, GetTiles(node.children[i + 1..], base.value));
      tiles := tiles + [tile.value];
    }
    r := Ok(tiles);
  }

  lemma {:induction false} GetPutTiles(ts: seq<WrittenTile>, base: Position)
    requires LegalTiles(ts, base)
    ensures GetTiles(TileNodes(ts, base), base) == Ok(PlaceTiles(ts, base))
  {
    if ts != [] {
      GetPutTile(ts[0], base);
      GetPutTiles(ts[1..], base);
    }
  }

  lemma {:induction false} PutGetTiles(ns: seq<Node>, base: Position) returns (ts: seq<WrittenTile>)
    requires GetTiles(ns, base).Ok?
    ensures LegalTiles(ts, base) && TileNodes(ts, base) == ns
    ensures GetTiles(ns, base) == Ok(PlaceTiles(ts, base))
    decreases |ns|
  {
    if ns == [] {
      ts := [];
    } else {
      var t := PutGetTile(ns[0], base);
      var rest := PutGetTiles(ns[1..], base);
      ts := [t] + rest;
      assert ts[0] == t && ts[1..] == rest;
      assert ns == [ns[0]] + ns[1..];
    }
  }

  /** A node is the writing of legal tiles that stand for `placed`. */
  ghost predicate WrittenArea(n: Node, placed: seq<PlacedTile>) {
    exists base, ts :: LegalTiles(ts, base) && AreaNode(base, ts) == n && PlaceTiles(ts, base) == placed
  }

  /** The area decoder accepts exactly the written areas, and answers what their tiles stand for. */
  lemma DecodesExactlyTheWrittenAreas(n: Node, placed: seq<PlacedTile>)
    requires n.kind == TILE_AREA
    ensures GetArea(n) == Ok(placed) <==> WrittenArea(n, placed)
  {
    if GetArea(n) == Ok(placed) {
      var base := GetPosition(n.props).value.value;
      PutGetPosition(n.props);
      assert PutPosition(base) + [] == PutPosition(base);
      var ts := PutGetTiles(n.children, base);
      assert AreaNode(base, ts) == n;
    }
    forall base, ts | LegalTiles(ts, base) && AreaNode(base, ts) == n
      ensures GetArea(n) == Ok(PlaceTiles(ts, base))
    {
      GetPutArea(base, ts);
    }
  }

  lemma GetPutArea(base: Position, ts: seq<WrittenTile>)
    requires LegalTiles(ts, base)
    ensures GetArea(AreaNode(base, ts)) == Ok(PlaceTiles(ts, base))
  {
    GetPutTiles(ts, base);
    assert PutPosition(base) + [] == PutPosition(base);
    GetPutPosition(base, []);
  }

  /** From tiles to bytes and back through both layers, framing and attribute streams. */
  lemma AreaBytesRoundTrip(base: Position, ts: seq<WrittenTile>, limits: Limits)
    requires LegalTiles(ts, base) && WithinLimits(AreaNode(base, ts), limits)
    ensures Parse(Frame(AreaNode(base, ts)), limits) == Ok(AreaNode(base, ts))
    ensures GetArea(AreaNode(base, ts)) == Ok(PlaceTiles(ts, base))
  {
    FramingRoundTrip(AreaNode(base, ts), limits);
    GetPutArea(base, ts);
  }
}
