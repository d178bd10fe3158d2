/** What one entry of a stage table says, key by key. */
module StageEntries {
  import opened Prelude
  import opened Stages
  import opened StageTable

  /** The number written for a key, if the key is there. */
  function ValueFor(fs: seq<FieldText>, key: string): (v: Option<u32>)
    requires GoodFields(fs)
  {
    if fs == [] then None
    else if fs[0].key == key then Some(Value(fs[0].digits))
    else ValueFor(fs[1..], key)
  }

  predicate Has(fs: seq<FieldText>, key: string) {
    exists i :: 0 <= i < |fs| && fs[i].key == key
  }

  predicate Repeats(fs: seq<FieldText>) {
    exists i, j :: 0 <= i < j < |fs| && fs[i].key == fs[j].key
  }

  predicate OnlyKnown(fs: seq<FieldText>) {
    forall i | 0 <= i < |fs| :: fs[i].key == "minlevel" || fs[i].key == "maxlevel" || fs[i].key == "multiplier"
  }

  /** None of the keys that have a value already is written. */
  predicate StillOpen(fs: seq<FieldText>, f: Fields) {
    && (f.min.Some? ==> !Has(fs, "minlevel")) && (f.max.Some? ==> !Has(fs, "maxlevel"))
    && (f.multiplier.Some? ==> !Has(fs, "multiplier"))
  }

  function Or(a: Option<u32>, b: Option<u32>): Option<u32> {
    if a.Some? then a else b
  }

  /** Fields are accepted exactly if every key is known and written once, and then each value is that of its key. */
  lemma {:induction false} FieldsMean(fs: seq<FieldText>, f: Fields)
    requires GoodFields(fs)
    ensures FieldsMeaning(fs, f).Ok? <==> OnlyKnown(fs) && !Repeats(fs) && StillOpen(fs, f)
    ensures FieldsMeaning(fs, f).Ok? ==>
      FieldsMeaning(fs, f).value == Fields(Or(f.min, ValueFor(fs, "minlevel")), Or(f.max, ValueFor(fs, "maxlevel")),
                                           Or(f.multiplier, ValueFor(fs, "multiplier")))
    decreases |fs|
  {
    if fs != [] {
      var key, rest := fs[0].key, fs[1..];
      forall k ensures Has(fs, k) <==> k == key || Has(rest, k) {
        HasStep(fs, k);
      }
      RepeatsStep(fs);
      assert OnlyKnown(fs) <==> OnlyKnown([fs[0]]) && OnlyKnown(rest) by { OnlyKnownStep(fs); }
      forall k ensures ValueFor(rest, k).Some? <==> Has(rest, k) {
        ValueIfThere(rest, k);
      }
      match Put(f, key, Value(fs[0].digits))
      case Err =>
      case Ok(g) => FieldsMean(rest, g);
    }
  }

  lemma HasStep(fs: seq<FieldText>, k: string)
    requires fs != []
    ensures Has(fs, k) <==> k == fs[0].key || Has(fs[1..], k)
  {
    if i :| 0 <= i < |fs| && fs[i].key == k {
      assert i > 0 ==> fs[1..][i - 1].key == k;
    }
    if i :| 0 <= i < |fs[1..]| && fs[1..][i].key == k {
      assert fs[i + 1].key == k;
    }
  }

  lemma RepeatsStep(fs: seq<FieldText>)
    requires fs != []
    ensures Repeats(fs) <==> Has(fs[1..], fs[0].key) || Repeats(fs[1..])
  {
    var rest := fs[1..];
    if i, j :| 0 <= i < j < |fs| && fs[i].key == fs[j].key {
      assert rest[j - 1].key == fs[i].key;
      assert i > 0 ==> rest[i - 1].key == rest[j - 1].key;
    }
    if j :| 0 <= j < |rest| && rest[j].key == fs[0].key {
      assert fs[0].key == fs[j + 1].key;
    }
    if i, j :| 0 <= i < j < |rest| && rest[i].key == rest[j].key {
      assert fs[i + 1].key == fs[j + 1].key;
    }
  }

  lemma OnlyKnownStep(fs: seq<FieldText>)
    requires fs != []
    ensures OnlyKnown(fs) <==> OnlyKnown([fs[0]]) && OnlyKnown(fs[1..])
  {
    if OnlyKnown([fs[0]]) && OnlyKnown(fs[1..]) {
      forall i | 0 <= i < |fs|
        ensures fs[i].key == "minlevel" || fs[i].key == "maxlevel" || fs[i].key == "multiplier"
      {
        assert fs[i] == if i == 0 then [fs[0]][0] else fs[1..][i - 1];
      }
    }
  }

  lemma {:induction false} ValueIfThere(fs: seq<FieldText>, k: string)
    requires GoodFields(fs)
    ensures ValueFor(fs, k).Some? <==> Has(fs, k)
    decreases |fs|
  {
    if fs != [] {
      HasStep(fs, k);
      ValueIfThere(fs[1..], k);
    }
  }

  /**
   * Every key is known and written once, the lower level and the multiplier are there, the levels are in
   * order and at least 1, and the multiplier is from 1 to 100; without an upper level it is open-ended.
   */
  predicate EntrySays(fs: seq<FieldText>, stage: Stage)
    requires GoodFields(fs)
  {
    && OnlyKnown(fs) && !Repeats(fs)
    && ValueFor(fs, "minlevel") == Some(stage.minLevel)
    && stage.maxLevel == (match ValueFor(fs, "maxlevel") case Some(max) => max case None => 4_294_967_295)
    && ValueFor(fs, "multiplier").Some? && stage.multiplierMilli == 1000 * ValueFor(fs, "multiplier").value
    && 1 <= stage.minLevel <= stage.maxLevel && 1 <= ValueFor(fs, "multiplier").value <= 100
  }

  lemma EntryMeans(fs: seq<FieldText>, stage: Stage)
    requires GoodFields(fs)
    ensures FieldsMeaning(fs, NONE_YET).Ok? && MadeOf(FieldsMeaning(fs, NONE_YET).value) == Ok(stage)
       <==> EntrySays(fs, stage)
  {
    FieldsMean(fs, NONE_YET);
  }

  /** The stages are what the entries say, one by one. */
  predicate EntriesSay(es: seq<EntryText>, stages: seq<Stage>)
    requires GoodEntries(es)
  {
    |stages| == |es| && forall i | 0 <= i < |es| :: EntrySays(es[i].fields, stages[i])
  }

  /** A table of at most 512 entries means the stages that its entries say, in order; every other one is refused. */
  lemma {:induction false} EntriesMean(es: seq<EntryText>, done: seq<Stage>, all: seq<Stage>)
    requires GoodEntries(es) && |done| <= 512
    ensures EntriesMeaning(es, done) == Ok(all)
       <==> |done| + |es| <= 512 && done <= all && EntriesSay(es, all[|done|..])
    decreases |es|
  {
    if es == [] {
      assert done <= all && |all[|done|..]| == 0 ==> all == done;
    } else if |done| < 512 {
      if |all| > |done| {
        EntryMeans(es[0].fields, all[|done|]);
        FirstEntrySays(es, all[|done|..]);
        assert all[|done|..][1..] == all[|done| + 1..];
      }
      match FieldsMeaning(es[0].fields, NONE_YET)
      case Err =>
      case Ok(f) =>
        if MadeOf(f).Ok? {
          var longer := done + [MadeOf(f).value];
          EntriesMean(es[1..], longer, all);
          assert longer <= all <==> done <= all && |all| > |done| && all[|done|] == MadeOf(f).value;
        }
    }
  }

  lemma FirstEntrySays(es: seq<EntryText>, stages: seq<Stage>)
    requires es != [] && stages != [] && GoodEntries(es)
    ensures GoodEntries(es[1..])
    ensures EntriesSay(es, stages) <==> EntrySays(es[0].fields, stages[0]) && EntriesSay(es[1..], stages[1..])
  {
    if EntrySays(es[0].fields, stages[0]) && EntriesSay(es[1..], stages[1..]) {
      forall i | 0 <= i < |es| ensures EntrySays(es[i].fields, stages[i]) {
        assert i > 0 ==> es[i] == es[1..][i - 1] && stages[i] == stages[1..][i - 1];
      }
    }
  }
}
