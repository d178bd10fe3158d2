/**
 * The byte-by-byte reader of the stage table: an offset that moves over the text, proved against the
 * reading functions of the table.
 */
module StageReader {
  import opened Prelude
  import opened Stages
  import opened StageTable

  class Reader {
    const source: string
    var offset: nat

    ghost predicate Valid()
      reads this
    {
      offset <= |source|
    }

    /** The text that is still to be read. */
    ghost function Left(): string
      requires Valid()
      reads this
    {
      source[offset..]
    }

    constructor (text: string)
      ensures Valid() && source == text && Left() == text
    {
      source, offset := text, 0;
    }

    /** Moves past characters of one class. */
    method SkipClass(cl: Class)
      requires Valid()
      modifies this`offset
      ensures Valid() && offset == old(offset) + Count(cl, old(Left()))
    {
      ghost var goal := offset + Count(cl, Left());
      while offset < |source| && In(cl, source[offset])
        invariant Valid() && goal == offset + Count(cl, Left())
        decreases |source| - offset
      {
        assert source[offset..][1..] == source[offset + 1..];
        offset := offset + 1;
      }
    }

    method SkipWhitespace()
      requires Valid()
      modifies this`offset
      ensures Valid() && Left() == Skip(old(Left()))
    {
      SkipClass(White);
    }

    /** Skips white space, then takes the expected character if it is there. */
    method Consume(c: char) returns (found: bool)
      requires Valid()
      modifies this`offset
      ensures Valid() && found == Starts(Skip(old(Left())), c)
      ensures Left() == if found then Skip(old(Left()))[1..] else Skip(old(Left()))
    {
      SkipWhitespace();
      found := offset < |source| && source[offset] == c;
      if found {
        offset := offset + 1;
      }
    }

    method NextIs(c: char) returns (found: bool)
      requires Valid()
      modifies this`offset
      ensures Valid() && found == Starts(Skip(old(Left())), c) && Left() == Skip(old(Left()))
    {
      SkipWhitespace();
      found := offset < |source| && source[offset] == c;
    }

    method Expect(c: char) returns (r: Result<()>)
      requires Valid()
      modifies this`offset
      ensures Valid() && (r.Ok? <==> ReadChar(old(Left()), c).Ok?)
      ensures r.Ok? ==> ReadChar(old(Left()), c) == Ok(Left())
    {
      var found := Consume(c);
      return if found then Ok(()) else Err;
    }

    method Identifier() returns (r: Result<string>)
      requires Valid()
      modifies this`offset
      ensures Valid() && (r.Ok? <==> ReadWord(old(Left())).Ok?)
      ensures r.Ok? ==> ReadWord(old(Left())) == Ok((r.value, Left()))
    {
      SkipWhitespace();
      var start := offset;
      SkipClass(Word);
      if start == offset {
        return Err;
      }
      Halves(source, start, offset);
      return Ok(source[start..offset]);
    }

    method UnsignedInteger() returns (r: Result<u32>)
      requires Valid()
      modifies this`offset
      ensures Valid() && (r.Ok? <==> ReadNumber(old(Left())).Ok?)
      ensures r.Ok? ==> ReadNumber(old(Left())) == Ok((r.value, Left()))
    {
      SkipWhitespace();
      var start := offset;
      ghost var t := Left();
      CountStops(Digit, t);
      SkipClass(Digit);
      if start == offset {
        return Err;
      }
      var digits := source[start..offset];
      Halves(source, start, offset);
      assert digits == t[..Count(Digit, t)] && Left() == t[Count(Digit, t)..];
      var v := Value(digits);
      if v > U32_MAX {
        return Err;
      }
      return Ok(v);
    }

    /** A comma, or a look at the closing brace. */
    method Separator() returns (r: Result<()>)
      requires Valid()
      modifies this`offset
      ensures Valid() && (r.Ok? <==> Separated(old(Left())).Ok?)
      ensures r.Ok? ==> Separated(old(Left())) == Ok(Left())
    {
      SkipWhitespace();
      SkipTwice(old(Left()));
      var comma := Consume(',');
      if comma {
        return Ok(());
      }
      SkipTwice(Left());
      var brace := NextIs('}');
      return if brace then Ok(()) else Err;
    }

    /** One `key = number`. */
    method Field() returns (r: Result<(string, u32)>)
      requires Valid()
      modifies this`offset
      ensures Valid() && (r.Ok? <==> ReadField(old(Left())).Ok?)
      ensures r.Ok? ==> ReadField(old(Left())) == Ok((r.value.0, r.value.1, Left()))
    {
      var key := Identifier();
      if key.Err? {
        return Err;
      }
      var sign := Expect('=');
      if sign.Err? {
        return Err;
      }
      var v := UnsignedInteger();
      return if v.Ok? then Ok((key.value, v.value)) else Err;
    }

    /** The fields of an entry, up to and including its closing brace. */
    method EntryFields() returns (r: Result<Fields>)
      requires Valid()
      modifies this`offset
      ensures Valid() && (r.Ok? <==> ReadFields(old(Left()), NONE_YET).Ok?)
      ensures r.Ok? ==> ReadFields(old(Left()), NONE_YET) == Ok((r.value, Left()))
    {
      var f := NONE_YET;
      ghost var goal := ReadFields(Left(), f);
      while true
        invariant Valid() && ReadFields(Left(), f) == goal
        decreases |source| - offset
      {
        SameFieldsAfterSkip(Left(), f);
        SkipTwice(Left());
        var closed := Consume('}');
        if closed {
          return Ok(f);
        }
        var field := Field();
        if field.Err? {
          return Err;
        }
        var put := Put(f, field.value.0, field.value.1);
        if put.Err? {
          return Err;
        }
        f := put.value;
        var separated := Separator();
        if separated.Err? {
          return Err;
        }
      }
    }

    /** The entries of the table, up to its closing brace; at most 512 of them. */
    method Entries() returns (r: Result<seq<Stage>>)
      requires Valid()
      modifies this`offset
      ensures Valid() && r == ReadEntries(old(Left()), [])
    {
      var stages: seq<Stage> := [];
      ghost var goal := ReadEntries(Left(), stages);
      while true
        invariant Valid() && ReadEntries(Left(), stages) == goal
        decreases |source| - offset
      {
        SameEntriesAfterSkip(Left(), stages);
        SkipTwice(Left());
        var closed := Consume('}');
        if closed {
          SkipWhitespace();
          return if offset == |source| then Ok(stages) else Err;
        }
        if |stages| >= MAX_STAGES {
          return Err;
        }
        var stage := Entry();
        if stage.Err? {
          return Err;
        }
        stages := stages + [stage.value];
      }
    }

    /** One entry with what separates it from the next. */
    method Entry() returns (r: Result<Stage>)
      requires Valid()
      modifies this`offset
      ensures Valid() && (r.Ok? <==> ReadEntry(old(Left())).Ok?)
      ensures r.Ok? ==> ReadEntry(old(Left())) == Ok((r.value, Left())) && offset > old(offset)
    {
      var brace := Expect('{');
      if brace.Err? {
        return Err;
      }
      var f := EntryFields();
      if f.Err? {
        return Err;
      }
      var stage := MadeOf(f.value);
      if stage.Err? {
        return Err;
      }
      var separated := Separator();
      return if separated.Ok? then stage else Err;
    }
  }

  /** Parses a whole table. */
  method ParseTable(table: string) returns (r: Result<seq<Stage>>)
    ensures r == ReadTable(table)
  {
    if |table| > MAX_BYTES {
      return Err;
    }
    var reader := new Reader(table);
    var brace := reader.Expect('{');
    if brace.Err? {
      return Err;
    }
    var stages := reader.Entries();
    return if stages.Ok? then Validated(stages.value) else Err;
  }

  /** One entry and its separator, seen from the whole list. */
  function ReadEntry(r: string): (o: Result<(Stage, string)>)
    ensures o.Ok? ==> |o.value.1| < |r|
  {
    match ReadChar(r, '{')
    case Err => Err
    case Ok(inside) =>
      match ReadFields(inside, NONE_YET)
      case Err => Err
      case Ok((f, afterEntry)) =>
        match MadeOf(f)
        case Err => Err
        case Ok(stage) =>
          match Separated(afterEntry)
          case Err => Err
          case Ok(rest) => Ok((stage, rest))
  }

  lemma Halves(s: string, i: nat, j: nat)
    requires i <= j <= |s|
    ensures s[i..][..j - i] == s[i..j] && s[i..][j - i..] == s[j..]
  {
  }

  lemma SameWordAfterSkip(r: string)
    ensures ReadWord(Skip(r)) == ReadWord(r)
  {
    SkipTwice(r);
  }

  lemma SameFieldsAfterSkip(r: string, f: Fields)
    ensures ReadFields(Skip(r), f) == ReadFields(r, f)
  {
    SkipTwice(r);
    SameWordAfterSkip(r);
    assert ReadField(Skip(r)) == ReadField(r);
  }

  lemma SameCharAfterSkip(r: string, c: char)
    ensures ReadChar(Skip(r), c) == ReadChar(r, c)
  {
    SkipTwice(r);
  }

  lemma SameEntriesAfterSkip(r: string, done: seq<Stage>)
    ensures ReadEntries(Skip(r), done) == ReadEntries(r, done)
  {
    SkipTwice(r);
    SameCharAfterSkip(r, '{');
  }
}
