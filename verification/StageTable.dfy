/**
 * The literal stage table of a configuration file. A written table is a list of entries with fields in
 * any order and white space anywhere; the reader accepts exactly the written tables, and what it returns
 * is what the table says. Text is a sequence of bytes, written as characters.
 */
module StageTable {
  import opened Prelude
  import opened Stages

  const MAX_BYTES: nat := 1_048_576

  // ----- characters -----

  datatype Class = White | Word | Digit

  predicate In(cl: Class, c: char) {
    match cl
    case White => c as int in {9, 10, 12, 13, 32}
    case Digit => '0' <= c <= '9'
    case Word => '0' <= c <= '9' || 'a' <= c <= 'z' || 'A' <= c <= 'Z' || c == '_'
  }

  predicate AllIn(cl: Class, s: string) {
    forall i | 0 <= i < |s| :: In(cl, s[i])
  }

  /** How many characters of a class the text starts with. */
  function Count(cl: Class, r: string): (n: nat)
    ensures n <= |r|
  {
    if r != [] && In(cl, r[0]) then 1 + Count(cl, r[1..]) else 0
  }

  function Skip(r: string): (t: string)
    ensures |t| <= |r|
  {
    r[Count(White, r)..]
  }

  predicate Starts(r: string, c: char) {
    r != [] && r[0] == c
  }

  predicate Stops(cl: Class, r: string) {
    r == [] || !In(cl, r[0])
  }

  lemma {:induction false} CountStops(cl: Class, r: string)
    ensures AllIn(cl, r[..Count(cl, r)]) && Stops(cl, r[Count(cl, r)..])
  {
    if r != [] && In(cl, r[0]) {
      CountStops(cl, r[1..]);
      var n := Count(cl, r[1..]);
      assert r[..n + 1] == [r[0]] + r[1..][..n] && r[n + 1..] == r[1..][n..];
    }
  }

  lemma {:induction false} CountOf(cl: Class, a: string, b: string)
    requires AllIn(cl, a) && Stops(cl, b)
    ensures Count(cl, a + b) == |a|
  {
    if a == [] {
      assert a + b == b;
    } else {
      assert (a + b)[1..] == a[1..] + b;
      CountOf(cl, a[1..], b);
    }
  }

  lemma SkipGap(gap: string, b: string)
    requires AllIn(White, gap) && Stops(White, b)
    ensures Skip(gap + b) == b
  {
    CountOf(White, gap, b);
    assert (gap + b)[|gap|..] == b;
  }

  // ----- numbers -----

  function Value(digits: string): nat
    requires AllIn(Digit, digits)
  {
    if digits == [] then 0 else Value(digits[..|digits| - 1]) * 10 + (digits[|digits| - 1] as int - '0' as int)
  }

  // ----- the reader -----

  /** The fields of one entry read so far. */
  datatype Fields = Fields(min: Option<u32>, max: Option<u32>, multiplier: Option<u32>)

  const NONE_YET := Fields(None, None, None)

  function Put(f: Fields, key: string, v: u32): Result<Fields> {
    if key == "minlevel" && f.min.None? then Ok(f.(min := Some(v)))
    else if key == "maxlevel" && f.max.None? then Ok(f.(max := Some(v)))
    else if key == "multiplier" && f.multiplier.None? then Ok(f.(multiplier := Some(v)))
    else Err
  }

  /** A word. */
  function ReadWord(r: string): (o: Result<(string, string)>)
    ensures o.Ok? ==> |o.value.1| < |r|
  {
    var t := Skip(r);
    var n := Count(Word, t);
    if n == 0 then Err else Ok((t[..n], t[n..]))
  }

  function ReadNumber(r: string): (o: Result<(u32, string)>)
    ensures o.Ok? ==> |o.value.1| < |r|
  {
    var t := Skip(r);
    var n := Count(Digit, t);
    CountStops(Digit, t);
    if n == 0 || Value(t[..n]) > U32_MAX then Err else Ok((Value(t[..n]), t[n..]))
  }

  function ReadChar(r: string, c: char): (o: Result<string>)
    ensures o.Ok? ==> |o.value| < |r|
  {
    if Starts(Skip(r), c) then Ok(Skip(r)[1..]) else Err
  }

  /** `= number` */
  function ReadAssigned(r: string): (o: Result<(u32, string)>)
    ensures o.Ok? ==> |o.value.1| < |r|
  {
    match ReadChar(r, '=')
    case Err => Err
    case Ok(afterSign) => ReadNumber(afterSign)
  }

  /** One `key = number`. */
  function ReadField(r: string): (o: Result<(string, u32, string)>)
    ensures o.Ok? ==> |o.value.2| < |r|
  {
    match ReadWord(r)
    case Err => Err
    case Ok((key, afterKey)) =>
      match ReadAssigned(afterKey)
      case Err => Err
      case Ok((v, rest)) => Ok((key, v, rest))
  }

  /** After a field or an entry: a comma, or the closing brace (which stays). */
  function Separated(r: string): (o: Result<string>)
    ensures o.Ok? ==> |o.value| <= |r|
  {
    var t := Skip(r);
    if Starts(t, ',') then Ok(t[1..]) else if Starts(t, '}') then Ok(t) else Err
  }

  function ReadFields(r: string, f: Fields): (o: Result<(Fields, string)>)
    ensures o.Ok? ==> |o.value.1| < |r|
    decreases |r|
  {
    if Starts(Skip(r), '}') then Ok((f, Skip(r)[1..]))
    else
      match ReadField(r)
      case Err => Err
      case Ok((key, v, afterField)) =>
        match Put(f, key, v)
        case Err => Err
        case Ok(g) =>
          match Separated(afterField)
          case Err => Err
          case Ok(rest) => ReadFields(rest, g)
  }

  /** The stage of a finished entry; without an upper level it is open-ended. */
  function MadeOf(f: Fields): Result<Stage> {
    if f.min.None? || f.multiplier.None? then Err
    else
      var max := if f.max.Some? then f.max.value else U32_MAX;
      if f.min.value == 0 || max < f.min.value || f.multiplier.value == 0
         || f.multiplier.value * 1_000 > MAX_MULTIPLIER_MILLI then Err
      else Ok(Stage(f.min.value, max, f.multiplier.value * 1_000))
  }

  /** The entries of the table, up to its closing brace and the end of the text. */
  function ReadEntries(r: string, done: seq<Stage>): Result<seq<Stage>>
    decreases |r|
  {
    if Starts(Skip(r), '}') then if Skip(Skip(r)[1..]) == [] then Ok(done) else Err
    else if |done| >= MAX_STAGES then Err
    else
      match ReadChar(r, '{')
      case Err => Err
      case Ok(inside) =>
        match ReadFields(inside, NONE_YET)
        case Err => Err
        case Ok((f, afterEntry)) =>
          match MadeOf(f)
          case Err => Err
          case Ok(stage) =>
            match Separated(afterEntry)
            case Err => Err
            case Ok(rest) => ReadEntries(rest, done + [stage])
  }

  function ReadTable(source: string): Result<seq<Stage>> {
    if |source| > MAX_BYTES then Err
    else
      match ReadChar(source, '{')
      case Err => Err
      case Ok(inside) =>
        match ReadEntries(inside, [])
        case Err => Err
        case Ok(stages) => Validated(stages)
  }

  // ----- written tables -----

  /** `lead key gap = gap digits trail`, with a comma unless it is the last of its entry. */
  datatype FieldText = FieldText(lead: string, key: string, gap: string, pad: string, digits: string, trail: string, comma: bool)

  datatype EntryText = EntryText(lead: string, fields: seq<FieldText>, close: string, trail: string, comma: bool)

  datatype TableText = TableText(lead: string, entries: seq<EntryText>, close: string, trail: string)

  function Comma(yes: bool, rest: string): string {
    if yes then "," + rest else rest
  }

  function Ending(f: FieldText, rest: string): string {
    f.trail + Comma(f.comma, rest)
  }

  function Assigned(f: FieldText, rest: string): string {
    f.gap + ("=" + (f.pad + (f.digits + Ending(f, rest))))
  }

  /** Everything is written in front of what follows it. */
  function WriteField(f: FieldText, rest: string): string {
    f.lead + (f.key + Assigned(f, rest))
  }

  function WriteFields(fs: seq<FieldText>, rest: string): string {
    if fs == [] then rest else WriteField(fs[0], WriteFields(fs[1..], rest))
  }

  function EntryBody(e: EntryText, rest: string): string {
    WriteFields(e.fields, e.close + ("}" + (e.trail + Comma(e.comma, rest))))
  }

  function WriteEntry(e: EntryText, rest: string): string {
    e.lead + ("{" + EntryBody(e, rest))
  }

  function WriteEntries(es: seq<EntryText>, rest: string): string {
    if es == [] then rest else WriteEntry(es[0], WriteEntries(es[1..], rest))
  }

  function Write(t: TableText): string {
    t.lead + ("{" + WriteEntries(t.entries, t.close + ("}" + t.trail)))
  }

  predicate GoodField(f: FieldText) {
    && AllIn(White, f.lead) && AllIn(White, f.gap) && AllIn(White, f.pad) && AllIn(White, f.trail)
    && f.key != [] && AllIn(Word, f.key)
    && f.digits != [] && AllIn(Digit, f.digits) && Value(f.digits) <= U32_MAX
  }

  predicate GoodFields(fs: seq<FieldText>) {
    forall i | 0 <= i < |fs| :: GoodField(fs[i]) && (i < |fs| - 1 ==> fs[i].comma)
  }

  predicate GoodEntry(e: EntryText) {
    AllIn(White, e.lead) && GoodFields(e.fields) && AllIn(White, e.close) && AllIn(White, e.trail)
  }

  predicate GoodEntries(es: seq<EntryText>) {
    forall i | 0 <= i < |es| :: GoodEntry(es[i]) && (i < |es| - 1 ==> es[i].comma)
  }

  predicate GoodTable(t: TableText) {
    AllIn(White, t.lead) && GoodEntries(t.entries) && AllIn(White, t.close) && AllIn(White, t.trail)
  }

  // ----- what a written table says -----

  function FieldsMeaning(fs: seq<FieldText>, f: Fields): Result<Fields>
    requires GoodFields(fs)
  {
    if fs == [] then Ok(f)
    else
      match Put(f, fs[0].key, Value(fs[0].digits))
      case Err => Err
      case Ok(g) => FieldsMeaning(fs[1..], g)
  }

  function EntriesMeaning(es: seq<EntryText>, done: seq<Stage>): Result<seq<Stage>>
    requires GoodEntries(es)
  {
    if es == [] then Ok(done)
    else if |done| >= MAX_STAGES then Err
    else
      match FieldsMeaning(es[0].fields, NONE_YET)
      case Err => Err
      case Ok(f) =>
        match MadeOf(f)
        case Err => Err
        case Ok(stage) => EntriesMeaning(es[1..], done + [stage])
  }

  // ----- written tables are read as what they say -----

  lemma WordComesBack(lead: string, key: string, b: string)
    requires AllIn(White, lead) && key != [] && AllIn(Word, key) && Stops(Word, b)
    ensures ReadWord(lead + (key + b)) == Ok((key, b))
  {
    assert In(Word, key[0]) && !In(White, key[0]);
    SkipGap(lead, key + b);
    CountOf(Word, key, b);
    assert (key + b)[..|key|] == key && (key + b)[|key|..] == b;
  }

  lemma NumberComesBack(pad: string, digits: string, b: string)
    requires AllIn(White, pad) && digits != [] && AllIn(Digit, digits) && Value(digits) <= U32_MAX && Stops(Digit, b)
    ensures ReadNumber(pad + (digits + b)) == Ok((Value(digits), b))
  {
    assert In(Digit, digits[0]) && !In(White, digits[0]);
    SkipGap(pad, digits + b);
    CountOf(Digit, digits, b);
    assert (digits + b)[..|digits|] == digits && (digits + b)[|digits|..] == b;
  }

  lemma CharComesBack(gap: string, c: string, b: string)
    requires AllIn(White, gap) && |c| == 1 && !In(White, c[0])
    ensures ReadChar(gap + (c + b), c[0]) == Ok(b) && Skip(gap + (c + b)) == c + b
  {
    SkipGap(gap, c + b);
    assert (c + b)[1..] == b;
  }

  /** White space in front of a text does not make it start with anything else. */
  lemma GapStops(cl: Class, gap: string, b: string)
    requires AllIn(White, gap) && !cl.White? && Stops(cl, b)
    ensures Stops(cl, gap + b)
  {
    assert gap != [] ==> In(White, gap[0]);
    assert gap == [] ==> gap + b == b;
  }

  lemma AssignedComesBack(f: FieldText, rest: string)
    requires GoodField(f) && (f.comma || Stops(Digit, rest))
    ensures ReadAssigned(Assigned(f, rest)) == Ok((Value(f.digits), Ending(f, rest)))
    ensures Stops(Word, Assigned(f, rest))
  {
    var end := Ending(f, rest);
    GapStops(Digit, f.trail, Comma(f.comma, rest));
    NumberComesBack(f.pad, f.digits, end);
    CharComesBack(f.gap, "=", f.pad + (f.digits + end));
    GapStops(Word, f.gap, "=" + (f.pad + (f.digits + end)));
  }

  lemma FieldComesBack(f: FieldText, rest: string)
    requires GoodField(f) && (f.comma || Stops(Digit, rest))
    ensures ReadField(WriteField(f, rest)) == Ok((f.key, Value(f.digits), Ending(f, rest)))
  {
    AssignedComesBack(f, rest);
    WordComesBack(f.lead, f.key, Assigned(f, rest));
  }

  lemma FieldIsNoBrace(f: FieldText, b: string)
    requires GoodField(f)
    ensures !Starts(Skip(f.lead + (f.key + b)), '}')
  {
    assert In(Word, f.key[0]);
    SkipGap(f.lead, f.key + b);
  }

  lemma {:induction false} SkipOver(gap: string, b: string)
    requires AllIn(White, gap)
    ensures Skip(gap + b) == Skip(b)
  {
    if gap == [] {
      assert gap + b == b;
    } else {
      assert (gap + b)[1..] == gap[1..] + b;
      SkipOver(gap[1..], b);
    }
  }

  lemma SkipTwice(r: string)
    ensures Skip(Skip(r)) == Skip(r)
  {
    CountStops(White, r);
  }

  lemma SeparatorComesBack(trail: string, comma: bool, rest: string)
    requires AllIn(White, trail)
    requires !comma ==> Starts(Skip(rest), '}')
    ensures Separated(trail + Comma(comma, rest)) == Ok(if comma then rest else Skip(rest))
  {
    if comma {
      SkipGap(trail, "," + rest);
      assert ("," + rest)[1..] == rest;
    } else {
      SkipOver(trail, rest);
    }
  }

  /** White space and the closing brace. */
  lemma ClosingComesBack(close: string, tail: string)
    requires AllIn(White, close)
    ensures Starts(Skip(close + ("}" + tail)), '}') && Skip(close + ("}" + tail))[1..] == tail
    ensures Stops(Digit, close + ("}" + tail))
  {
    GapStops(Digit, close, "}" + tail);
    SkipGap(close, "}" + tail);
  }

  lemma FieldsAfterSkip(r: string, f: Fields)
    requires Starts(Skip(r), '}')
    ensures ReadFields(Skip(r), f) == ReadFields(r, f) == Ok((f, Skip(r)[1..]))
  {
    SkipTwice(r);
  }

  /** Reading one written field and going on. */
  lemma FieldThenRest(f: FieldText, g: Fields, rest: string)
    requires GoodField(f) && (f.comma || (Stops(Digit, rest) && Starts(Skip(rest), '}')))
    ensures ReadFields(WriteField(f, rest), g) ==
      match Put(g, f.key, Value(f.digits))
      case Err => Err
      case Ok(next) => ReadFields(rest, next)
  {
    FieldComesBack(f, rest);
    FieldIsNoBrace(f, Assigned(f, rest));
    SeparatorComesBack(f.trail, f.comma, rest);
    if !f.comma && Put(g, f.key, Value(f.digits)).Ok? {
      FieldsAfterSkip(rest, Put(g, f.key, Value(f.digits)).value);
    }
  }

  lemma {:induction false} FieldsComeBack(fs: seq<FieldText>, f: Fields, close: string, tail: string)
    requires GoodFields(fs) && AllIn(White, close)
    ensures ReadFields(WriteFields(fs, close + ("}" + tail)), f) ==
      match FieldsMeaning(fs, f)
      case Err => Err
      case Ok(g) => Ok((g, tail))
    decreases |fs|
  {
    var end := close + ("}" + tail);
    ClosingComesBack(close, tail);
    if fs != [] {
      assert !fs[0].comma ==> |fs| == 1;
      FieldThenRest(fs[0], f, WriteFields(fs[1..], end));
      var put := Put(f, fs[0].key, Value(fs[0].digits));
      if put.Ok? {
        FieldsComeBack(fs[1..], put.value, close, tail);
      }
    }
  }

  lemma EntriesEnd(r: string, done: seq<Stage>)
    requires Starts(Skip(r), '}')
    ensures ReadEntries(Skip(r), done) == ReadEntries(r, done) == if Skip(Skip(r)[1..]) == [] then Ok(done) else Err
  {
    SkipTwice(r);
  }

  /** Reading one written entry and going on. */
  lemma EntryThenRest(e: EntryText, done: seq<Stage>, rest: string)
    requires GoodEntry(e) && (e.comma || Starts(Skip(rest), '}'))
    ensures ReadEntries(WriteEntry(e, rest), done) ==
      if |done| >= MAX_STAGES then Err
      else
        match FieldsMeaning(e.fields, NONE_YET)
        case Err => Err
        case Ok(f) =>
          match MadeOf(f)
          case Err => Err
          case Ok(stage) => ReadEntries(rest, done + [stage])
  {
    var after := e.trail + Comma(e.comma, rest);
    CharComesBack(e.lead, "{", EntryBody(e, rest));
    FieldsComeBack(e.fields, NONE_YET, e.close, after);
    SeparatorComesBack(e.trail, e.comma, rest);
    var read := FieldsMeaning(e.fields, NONE_YET);
    if !e.comma && read.Ok? && MadeOf(read.value).Ok? {
      EntriesEnd(rest, done + [MadeOf(read.value).value]);
    }
  }

  lemma BlankEnds(tail: string)
    requires AllIn(White, tail)
    ensures Skip(tail) == []
  {
    CountOf(White, tail, "");
    assert tail + "" == tail;
  }

  lemma {:induction false} EntriesComeBack(es: seq<EntryText>, done: seq<Stage>, close: string, tail: string)
    requires GoodEntries(es) && AllIn(White, close) && AllIn(White, tail)
    ensures ReadEntries(WriteEntries(es, close + ("}" + tail)), done) == EntriesMeaning(es, done)
    decreases |es|
  {
    var end := close + ("}" + tail);
    ClosingComesBack(close, tail);
    if es == [] {
      BlankEnds(tail);
      EntriesEnd(end, done);
    } else {
      assert !es[0].comma ==> |es| == 1;
      EntryThenRest(es[0], done, WriteEntries(es[1..], end));
      var read := FieldsMeaning(es[0].fields, NONE_YET);
      if read.Ok? && MadeOf(read.value).Ok? {
        EntriesComeBack(es[1..], done + [MadeOf(read.value).value], close, tail);
      }
    }
  }

  /** The reader makes of a written table what it says, whatever the order of fields and the spacing. */
  lemma WrittenTablesComeBack(t: TableText)
    requires GoodTable(t) && |Write(t)| <= MAX_BYTES
    ensures ReadTable(Write(t)) ==
      match EntriesMeaning(t.entries, [])
      case Err => Err
      case Ok(stages) => Validated(stages)
  {
    CharComesBack(t.lead, "{", WriteEntries(t.entries, t.close + ("}" + t.trail)));
    EntriesComeBack(t.entries, [], t.close, t.trail);
  }

  // ----- nothing but written tables is read -----

  lemma SkipLeaves(r: string) returns (gap: string)
    ensures AllIn(White, gap) && r == gap + Skip(r)
  {
    CountStops(White, r);
    gap := r[..Count(White, r)];
  }

  lemma CharFrom(r: string, c: string) returns (gap: string)
    requires |c| == 1 && ReadChar(r, c[0]).Ok?
    ensures AllIn(White, gap) && r == gap + (c + ReadChar(r, c[0]).value)
  {
    gap := SkipLeaves(r);
    assert Skip(r) == c + Skip(r)[1..];
  }

  lemma WordFrom(r: string) returns (lead: string)
    requires ReadWord(r).Ok?
    ensures var (key, rest) := ReadWord(r).value;
      AllIn(White, lead) && key != [] && AllIn(Word, key) && r == lead + (key + rest)
  {
    lead := SkipLeaves(r);
    var t := Skip(r);
    CountStops(Word, t);
    assert t == t[..Count(Word, t)] + t[Count(Word, t)..];
  }

  lemma NumberFrom(r: string) returns (pad: string, digits: string)
    requires ReadNumber(r).Ok?
    ensures var (v, rest) := ReadNumber(r).value;
      && AllIn(White, pad) && digits != [] && AllIn(Digit, digits) && Value(digits) == v
      && r == pad + (digits + rest)
  {
    pad := SkipLeaves(r);
    var t := Skip(r);
    CountStops(Digit, t);
    digits := t[..Count(Digit, t)];
    assert t == digits + t[Count(Digit, t)..];
  }

  lemma AssignedFrom(r: string) returns (gap: string, pad: string, digits: string)
    requires ReadAssigned(r).Ok?
    ensures var (v, rest) := ReadAssigned(r).value;
      && AllIn(White, gap) && AllIn(White, pad) && digits != [] && AllIn(Digit, digits) && Value(digits) == v
      && r == gap + ("=" + (pad + (digits + rest)))
  {
    gap := CharFrom(r, "=");
    pad, digits := NumberFrom(ReadChar(r, '=').value);
  }

  lemma SeparatorFrom(r: string) returns (trail: string, comma: bool)
    requires Separated(r).Ok?
    ensures AllIn(White, trail) && r == trail + Comma(comma, Separated(r).value)
    ensures !comma ==> Starts(Separated(r).value, '}')
  {
    trail := SkipLeaves(r);
    comma := Starts(Skip(r), ',');
    if comma {
      assert Skip(r) == "," + Skip(r)[1..];
    }
  }

  /** The text of a field, with what separates it from the rest. */
  lemma FieldFrom(r: string) returns (f: FieldText, rest: string)
    requires ReadField(r).Ok? && Separated(ReadField(r).value.2).Ok?
    ensures var (key, v, after) := ReadField(r).value;
      && GoodField(f) && f.key == key && Value(f.digits) == v && rest == Separated(after).value
      && r == WriteField(f, rest) && (!f.comma ==> Starts(rest, '}'))
  {
    var lead := WordFrom(r);
    var (key, afterKey) := ReadWord(r).value;
    var gap, pad, digits := AssignedFrom(afterKey);
    var (v, after) := ReadAssigned(afterKey).value;
    var trail, comma := SeparatorFrom(after);
    f := FieldText(lead, key, gap, pad, digits, trail, comma);
    rest := Separated(after).value;
    assert Ending(f, rest) == after && Assigned(f, rest) == afterKey;
  }

  lemma BraceAhead(r: string)
    requires Starts(r, '}')
    ensures Skip(r) == r && r == "" + ("}" + r[1..])
  {
    assert Count(White, r) == 0;
  }

  lemma GoodFieldsStep(f: FieldText, fs: seq<FieldText>)
    requires GoodField(f) && GoodFields(fs) && (fs != [] ==> f.comma)
    ensures GoodFields([f] + fs) && ([f] + fs)[0] == f && ([f] + fs)[1..] == fs
  {
    var all := [f] + fs;
    assert forall i | 0 < i < |all| :: all[i] == fs[i - 1];
  }

  lemma {:induction false} FieldsFrom(r: string, f: Fields) returns (fs: seq<FieldText>, close: string)
    requires ReadFields(r, f).Ok?
    ensures var (g, tail) := ReadFields(r, f).value;
      && GoodFields(fs) && AllIn(White, close)
      && r == WriteFields(fs, close + ("}" + tail)) && FieldsMeaning(fs, f) == Ok(g)
    decreases |r|
  {
    if Starts(Skip(r), '}') {
      fs := [];
      close := CharFrom(r, "}");
    } else {
      var field, rest := FieldFrom(r);
      var g := Put(f, field.key, Value(field.digits)).value;
      if field.comma {
        var more;
        more, close := FieldsFrom(rest, g);
        GoodFieldsStep(field, more);
        fs := [field] + more;
      } else {
        BraceAhead(rest);
        GoodFieldsStep(field, []);
        fs, close := [field] + [], "";
      }
    }
  }

  lemma GoodEntriesStep(e: EntryText, es: seq<EntryText>)
    requires GoodEntry(e) && GoodEntries(es) && (es != [] ==> e.comma)
    ensures GoodEntries([e] + es) && ([e] + es)[0] == e && ([e] + es)[1..] == es
  {
    var all := [e] + es;
    assert forall i | 0 < i < |all| :: all[i] == es[i - 1];
  }

  /** The text of an entry, with what separates it from the rest. */
  lemma EntryFrom(r: string) returns (e: EntryText, rest: string)
    requires ReadChar(r, '{').Ok? && ReadFields(ReadChar(r, '{').value, NONE_YET).Ok?
    requires Separated(ReadFields(ReadChar(r, '{').value, NONE_YET).value.1).Ok?
    ensures var (f, after) := ReadFields(ReadChar(r, '{').value, NONE_YET).value;
      && GoodEntry(e) && FieldsMeaning(e.fields, NONE_YET) == Ok(f) && rest == Separated(after).value
      && r == WriteEntry(e, rest) && (!e.comma ==> Starts(rest, '}'))
  {
    var lead := CharFrom(r, "{");
    var inside := ReadChar(r, '{').value;
    var fields, close := FieldsFrom(inside, NONE_YET);
    var after := ReadFields(inside, NONE_YET).value.1;
    var trail, comma := SeparatorFrom(after);
    e := EntryText(lead, fields, close, trail, comma);
    rest := Separated(after).value;
    assert EntryBody(e, rest) == inside;
  }

  lemma {:induction false} EntriesFrom(r: string, done: seq<Stage>)
    returns (es: seq<EntryText>, close: string, tail: string)
    requires ReadEntries(r, done).Ok?
    ensures GoodEntries(es) && AllIn(White, close) && AllIn(White, tail)
    ensures r == WriteEntries(es, close + ("}" + tail)) && EntriesMeaning(es, done) == ReadEntries(r, done)
    decreases |r|
  {
    if Starts(Skip(r), '}') {
      es := [];
      close := CharFrom(r, "}");
      tail := Skip(r)[1..];
      var blank := SkipLeaves(tail);
      assert tail == blank;
    } else {
      var e, rest := EntryFrom(r);
      var stage := MadeOf(FieldsMeaning(e.fields, NONE_YET).value).value;
      if e.comma {
        var more;
        more, close, tail := EntriesFrom(rest, done + [stage]);
        GoodEntriesStep(e, more);
        es := [e] + more;
      } else {
        BraceAhead(rest);
        GoodEntriesStep(e, []);
        tail := rest[1..];
        var blank := SkipLeaves(tail);
        assert tail == blank;
        es, close := [e] + [], "";
      }
    }
  }

  /** A written table of the text that says these stages. */
  ghost predicate Says(source: string, t: TableText, stages: seq<Stage>) {
    GoodTable(t) && Write(t) == source && EntriesMeaning(t.entries, []) == Ok(stages)
  }

  /** A text is read as a list of stages exactly if it is a written table that says them, in any order. */
  lemma ReadsExactlyTheWrittenTables(source: string, result: seq<Stage>)
    requires |source| <= MAX_BYTES
    ensures ReadTable(source) == Ok(result)
            <==> exists t, stages :: Says(source, t, stages) && Validated(stages) == Ok(result)
  {
    if ReadTable(source) == Ok(result) {
      var lead := CharFrom(source, "{");
      var inside := ReadChar(source, '{').value;
      var entries, close, tail := EntriesFrom(inside, []);
      var stages := ReadEntries(inside, []).value;
      assert Says(source, TableText(lead, entries, close, tail), stages);
    }
    if t, stages :| Says(source, t, stages) && Validated(stages) == Ok(result) {
      WrittenTablesComeBack(t);
    }
  }

  /** What an accepted table holds: proper stages in order of level, no two of which share one. */
  lemma AcceptedTablesAreDisjoint(source: string)
    requires ReadTable(source).Ok?
    ensures var stages := ReadTable(source).value;
      stages != [] && ByLevel(stages) && PairwiseDisjoint(stages) && forall x | x in stages :: Proper(x)
  {
    var read := ReadEntries(ReadChar(source, '{').value, []).value;
    AcceptsExactlyDisjointLists(read);
    SortedIsDisjoint(read);
  }

  // ----- printing a list -----

  function Decimal(n: nat): string {
    if n < 10 then ['0' + n as char] else Decimal(n / 10) + ['0' + (n % 10) as char]
  }

  lemma {:induction false} DecimalHasItsValue(n: nat)
    ensures Decimal(n) != [] && AllIn(Digit, Decimal(n)) && Value(Decimal(n)) == n
  {
    if n >= 10 {
      DecimalHasItsValue(n / 10);
      assert Decimal(n)[..|Decimal(n)| - 1] == Decimal(n / 10);
    } else {
      assert Decimal(n)[..0] == [];
    }
  }

  function PrintField(key: string, v: u32, comma: bool): FieldText {
    FieldText(" ", key, " ", " ", Decimal(v), "", comma)
  }

  function PrintEntry(s: Stage): EntryText {
    EntryText(" ", [PrintField("minlevel", s.minLevel, true), PrintField("maxlevel", s.maxLevel, true),
                    PrintField("multiplier", s.multiplierMilli / 1_000, false)], " ", "", true)
  }

  function PrintEntries(stages: seq<Stage>): seq<EntryText> {
    if stages == [] then [] else [PrintEntry(stages[0])] + PrintEntries(stages[1..])
  }

  function PrintTable(stages: seq<Stage>): TableText {
    TableText("", PrintEntries(stages), " ", "")
  }

  /** A stage that a table can express: multipliers are whole numbers there. */
  predicate Printable(s: Stage) {
    Proper(s) && s.multiplierMilli % 1_000 == 0
  }

  lemma PrintedFieldIsGood(key: string, v: u32, comma: bool)
    requires key in {"minlevel", "maxlevel", "multiplier"}
    ensures GoodField(PrintField(key, v, comma)) && Value(PrintField(key, v, comma).digits) == v
  {
    DecimalHasItsValue(v);
  }

  lemma PrintedFieldsComeBack(a: FieldText, b: FieldText, c: FieldText)
    requires GoodField(a) && GoodField(b) && GoodField(c) && a.comma && b.comma
    requires a.key == "minlevel" && b.key == "maxlevel" && c.key == "multiplier"
    ensures GoodFields([a, b, c])
    ensures FieldsMeaning([a, b, c], NONE_YET) == Ok(Fields(Some(Value(a.digits)), Some(Value(b.digits)), Some(Value(c.digits))))
  {
    var one := NONE_YET.(min := Some(Value(a.digits)));
    var two := one.(max := Some(Value(b.digits)));
    var three := two.(multiplier := Some(Value(c.digits)));
    assert [a, b, c][1..] == [b, c] && [b, c][1..] == [c] && [c][1..] == [];
    assert GoodFields([c]) && GoodFields([b, c]);
    assert FieldsMeaning([c], two) == Ok(three);
    assert FieldsMeaning([b, c], one) == Ok(three);
  }

  lemma {:induction false} PrintedEntryComesBack(s: Stage)
    requires Printable(s)
    ensures GoodEntry(PrintEntry(s))
    ensures var f := FieldsMeaning(PrintEntry(s).fields, NONE_YET); f.Ok? && MadeOf(f.value) == Ok(s)
  {
    var m := s.multiplierMilli / 1_000;
    PrintedFieldIsGood("minlevel", s.minLevel, true);
    PrintedFieldIsGood("maxlevel", s.maxLevel, true);
    PrintedFieldIsGood("multiplier", m, false);
    PrintedFieldsComeBack(PrintField("minlevel", s.minLevel, true), PrintField("maxlevel", s.maxLevel, true),
                          PrintField("multiplier", m, false));
  }

  lemma {:induction false} PrintedEntriesComeBack(stages: seq<Stage>, done: seq<Stage>)
    requires |done| + |stages| <= MAX_STAGES && forall x | x in stages :: Printable(x)
    ensures GoodEntries(PrintEntries(stages)) && EntriesMeaning(PrintEntries(stages), done) == Ok(done + stages)
    decreases |stages|
  {
    if stages == [] {
      assert done + stages == done;
    } else {
      var e, es := PrintEntry(stages[0]), PrintEntries(stages[1..]);
      PrintedEntryComesBack(stages[0]);
      PrintedEntriesComeBack(stages[1..], done + [stages[0]]);
      GoodEntriesStep(e, es);
      FirstEntryMeaning(e, es, done, stages[0]);
      assert stages == [stages[0]] + stages[1..];
      Assoc(done, [stages[0]], stages[1..]);
    }
  }

  lemma FirstEntryMeaning(e: EntryText, es: seq<EntryText>, done: seq<Stage>, s: Stage)
    requires GoodEntry(e) && GoodEntries(es) && GoodEntries([e] + es) && |done| < MAX_STAGES
    requires FieldsMeaning(e.fields, NONE_YET).Ok? && MadeOf(FieldsMeaning(e.fields, NONE_YET).value) == Ok(s)
    ensures EntriesMeaning([e] + es, done) == EntriesMeaning(es, done + [s])
  {
    assert ([e] + es)[1..] == es;
  }

  /** Any list of at most 512 proper stages, printed in any order, is read back sorted, or refused if it overlaps. */
  lemma PrintedListsComeBack(stages: seq<Stage>)
    requires |stages| <= MAX_STAGES && forall x | x in stages :: Printable(x)
    requires |Write(PrintTable(stages))| <= MAX_BYTES
    ensures ReadTable(Write(PrintTable(stages))) == Validated(stages)
  {
    PrintedEntriesComeBack(stages, []);
    assert [] + stages == stages;
    WrittenTablesComeBack(PrintTable(stages));
  }
}
