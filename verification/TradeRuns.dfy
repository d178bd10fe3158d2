module TradeRuns {
  // Runs of trade commands: which acceptances and which offers stand, in what really happened, when a trade goes ahead.
  import opened Prelude
  import opened Items
  import opened Trade
  import opened TradeExecution
  import opened TradeBooks
  import opened Offers

  datatype Command =
    | Open(initiator: PlayerId, counterparty: PlayerId)
    | Stage(player: PlayerId, ref: Reference)
    | Unstage(player: PlayerId, ref: Reference)
    | Accept(player: PlayerId)
    | Cancel(player: PlayerId)
    | Execute(player: PlayerId)
    | Meanwhile(online: set<PlayerId>, dead: set<PlayerId>, holdings: Holdings)

  /** What a command has done: to the trade that `key` opened, and by whom. */
  datatype Deed =
    | Nothing
    | Opens(key: PlayerId, other: PlayerId)
    | Stages(key: PlayerId, who: PlayerId, ref: Reference)
    | Unstages(key: PlayerId, who: PlayerId, ref: Reference)
    | Accepts(key: PlayerId, who: PlayerId)
    | Cancels(key: PlayerId)
    | Trades(key: PlayerId, other: PlayerId, mine: seq<Reference>, theirs: seq<Reference>, done: bool)

  /** A deed is one of those its command may do, by the player who gave it. */
  predicate Reports(c: Command, d: Deed) {
    match d
    case Nothing => true
    case Opens(key, other) => c == Command.Open(key, other)
    case Stages(_, who, ref) => c == Command.Stage(who, ref)
    case Unstages(_, who, ref) => c == Command.Unstage(who, ref)
    case Accepts(_, who) => c == Command.Accept(who)
    case Cancels(_) => c.Cancel?
    case Trades(_, _, _, _, _) => c.Execute?
  }

  /** What an acceptance by `who` does not survive: the end of the trade, and changes it has not seen. */
  predicate Breaks(d: Deed, key: PlayerId, who: PlayerId) {
    match d
    case Opens(k, _) => k == key
    case Stages(k, changer, _) => k == key && (who == key || changer == key)
    case Unstages(k, changer, _) => k == key && (who == key || changer == key)
    case Cancels(k) => k == key
    case Trades(k, other, _, _, done) => done && (k == key || other == key)
    case _ => false
  }

  /** `who` has accepted the trade that `key` opened, and nothing since has broken that. */
  predicate Stands(past: seq<Deed>, key: PlayerId, who: PlayerId) {
    exists i :: 0 <= i < |past| && past[i] == Accepts(key, who) && forall j | i < j < |past| :: !Breaks(past[j], key, who)
  }

  lemma StandsStep(past: seq<Deed>, d: Deed, key: PlayerId, who: PlayerId)
    ensures Stands(past + [d], key, who) <==> d == Accepts(key, who) || (Stands(past, key, who) && !Breaks(d, key, who))
  {
    var all := past + [d];
    assert all[|past|] == d && forall i | 0 <= i < |past| :: all[i] == past[i];
    if Stands(all, key, who) && d != Accepts(key, who) {
      var i :| 0 <= i < |all| && all[i] == Accepts(key, who) && forall j | i < j < |all| :: !Breaks(all[j], key, who);
      assert past[i] == Accepts(key, who) && !Breaks(all[|past|], key, who);
      forall j | i < j < |past| ensures !Breaks(past[j], key, who) {
        assert !Breaks(all[j], key, who);
      }
    }
    if Stands(past, key, who) && !Breaks(d, key, who) {
      var i :| 0 <= i < |past| && past[i] == Accepts(key, who) && forall j | i < j < |past| :: !Breaks(past[j], key, who);
      assert all[i] == Accepts(key, who);
      forall j | i < j < |all| ensures !Breaks(all[j], key, who) {
        assert j < |past| ==> !Breaks(past[j], key, who);
      }
    }
    if d == Accepts(key, who) {
      assert all[|past|] == Accepts(key, who);
    }
  }

  /** What a deed means for the offer of `who` in the trade that `key` opened: it starts empty. */
  function MarkIn(d: Deed, key: PlayerId, who: PlayerId): Mark {
    match d
    case Opens(k, _) => if k == key then Clears else Leaves
    case Stages(k, actor, ref) => if k == key && actor == who then Puts(ref) else Leaves
    case Unstages(k, actor, ref) => if k == key && actor == who then Takes(ref) else Leaves
    case Cancels(k) => if k == key then Clears else Leaves
    case Trades(k, other, _, _, done) => if done && (k == key || other == key) then Clears else Leaves
    case _ => Leaves
  }

  function MarksIn(past: seq<Deed>, key: PlayerId, who: PlayerId): (ms: seq<Mark>)
    ensures |ms| == |past|
  {
    seq(|past|, k requires 0 <= k < |past| => MarkIn(past[k], key, who))
  }

  lemma MarksInStep(past: seq<Deed>, d: Deed, key: PlayerId, who: PlayerId)
    ensures MarksIn(past + [d], key, who) == MarksIn(past, key, who) + [MarkIn(d, key, who)]
  {
  }

  /** `offer` is what `who` has staged and not taken back in the trade that `key` opened: see `Shows`. */
  ghost predicate OffersIn(past: seq<Deed>, key: PlayerId, who: PlayerId, offer: seq<Reference>) {
    Shows(MarksIn(past, key, who), offer)
  }

  lemma OffersOn(past: seq<Deed>, d: Deed, key: PlayerId, who: PlayerId, offer: seq<Reference>)
    requires OffersIn(past, key, who, offer) && MarkIn(d, key, who).Leaves?
    ensures OffersIn(past + [d], key, who, offer)
  {
    MarksInStep(past, d, key, who);
    OtherwiseShows(MarksIn(past, key, who), offer, Leaves);
  }

  lemma OffersNothing(past: seq<Deed>, d: Deed, key: PlayerId, who: PlayerId)
    requires MarkIn(d, key, who).Clears?
    ensures OffersIn(past + [d], key, who, [])
  {
    MarksInStep(past, d, key, who);
    forall ref ensures !Holds(MarksIn(past + [d], key, who), ref) {
      HoldsStep(MarksIn(past, key, who), Clears, ref);
    }
  }

  /** A session's flags and offers are what the history says of its two players. */
  ghost predicate Honest(past: seq<Deed>, key: PlayerId, s: Session) {
    && s.initiator == key && s.counterparty != key
    && (s.initiatorAccepted <==> Stands(past, key, key))
    && (s.counterpartyAccepted <==> Stands(past, key, s.counterparty))
    && OffersIn(past, key, key, s.initiatorItems) && OffersIn(past, key, s.counterparty, s.counterpartyItems)
  }

  ghost predicate Tells(past: seq<Deed>, active: Sessions) {
    forall key | key in active :: Honest(past, key, active[key])
  }

  /** The session that a command of `p` finds is one of his, on the side that `SideOf` says. */
  lemma FoundIsHis(active: Sessions, p: PlayerId, key: PlayerId)
    requires key in active && active[key].initiator == key && Finds(active, p, Some(key))
    ensures p == key || p == active[key].counterparty
    ensures SideOf(active[key], p).Initiator? <==> p == key
  {
  }

  /** The deed of a player who does something in the trade that `key` opened. */
  function DeedOf(key: PlayerId, p: PlayerId, e: Event): Deed {
    match e
    case Stage(_, ref) => Stages(key, p, ref)
    case Unstage(_, ref) => Unstages(key, p, ref)
    case Accept(_) => Accepts(key, p)
  }

  lemma TouchIsHonest(past: seq<Deed>, key: PlayerId, s: Session, p: PlayerId, e: Event)
    requires Honest(past, key, s) && (p == key || p == s.counterparty)
    requires (e.side.Initiator? <==> p == key) && Touched(s, e).Ok?
    ensures Honest(past + [DeedOf(key, p, e)], key, Touched(s, e).value)
  {
    var d, after := DeedOf(key, p, e), Touched(s, e).value;
    StandsStep(past, d, key, key);
    StandsStep(past, d, key, s.counterparty);
    MarksInStep(past, d, key, key);
    MarksInStep(past, d, key, s.counterparty);
    EventShows(s, e, MarksIn(past, key, key), Side.Initiator);
    EventShows(s, e, MarksIn(past, key, s.counterparty), Side.Counterparty);
  }

  /** A session stays honest under deeds that concern others. */
  lemma OthersStayHonest(past: seq<Deed>, key: PlayerId, s: Session, d: Deed)
    requires Honest(past, key, s)
    requires forall who :: d != Accepts(key, who) && !Breaks(d, key, who) && MarkIn(d, key, who).Leaves?
    ensures Honest(past + [d], key, s)
  {
    StandsStep(past, d, key, key);
    StandsStep(past, d, key, s.counterparty);
    OffersOn(past, d, key, key, s.initiatorItems);
    OffersOn(past, d, key, s.counterparty, s.counterpartyItems);
  }

  /** What a player does in one session is told by its deed, and concerns no other session. */
  lemma TouchIsTold(past: seq<Deed>, active: Sessions, key: PlayerId, p: PlayerId, e: Event)
    requires Tells(past, active) && key in active && Finds(active, p, Some(key))
    requires e.side == SideOf(active[key], p) && Touched(active[key], e).Ok?
    ensures Tells(past + [DeedOf(key, p, e)], active[key := Touched(active[key], e).value])
  {
    var d := DeedOf(key, p, e);
    var after := active[key := Touched(active[key], e).value];
    assert Honest(past, key, active[key]);
    FoundIsHis(active, p, key);
    TouchIsHonest(past, key, active[key], p, e);
    forall k | k in after ensures Honest(past + [d], k, after[k]) {
      if k != key {
        assert Honest(past, k, active[k]);
        OthersStayHonest(past, k, active[k], d);
      }
    }
  }

  lemma OpenIsTold(past: seq<Deed>, active: Sessions, key: PlayerId, other: PlayerId)
    requires Tells(past, active) && key != other
    ensures Tells(past + [Opens(key, other)], active[key := Opened(key, other)])
  {
    var d, after := Opens(key, other), active[key := Opened(key, other)];
    forall k | k in after ensures Honest(past + [d], k, after[k]) {
      if k != key {
        assert Honest(past, k, active[k]);
        OthersStayHonest(past, k, active[k], d);
      } else {
        StandsStep(past, d, key, key);
        StandsStep(past, d, key, other);
        OffersNothing(past, d, key, key);
        OffersNothing(past, d, key, other);
      }
    }
  }

  /** A deed that ends sessions, or none, leaves the others as they were told. */
  lemma EndIsTold(past: seq<Deed>, active: Sessions, d: Deed, gone: set<PlayerId>)
    requires Tells(past, active) && !d.Accepts?
    requires forall k, who | k in active && k !in gone :: !Breaks(d, k, who) && MarkIn(d, k, who).Leaves?
    ensures Tells(past + [d], active - gone)
  {
    forall k | k in active - gone ensures Honest(past + [d], k, active[k]) {
      assert Honest(past, k, active[k]);
      OthersStayHonest(past, k, active[k], d);
    }
  }

  lemma NothingIsTold(past: seq<Deed>, active: Sessions)
    requires Tells(past, active)
    ensures Tells(past + [Nothing], active)
  {
    EndIsTold(past, active, Nothing, {});
    assert active - {} == active;
  }

  /** A trade that goes ahead exchanges the offers that stand in the history, with both acceptances. */
  ghost predicate GoesAhead(past: seq<Deed>, d: Deed, before: Holdings, after: Holdings)
    requires d.Trades?
  {
    && Stands(past, d.key, d.key) && Stands(past, d.key, d.other)
    && OffersIn(past, d.key, d.key, d.mine) && OffersIn(past, d.key, d.other, d.theirs)
    && var s := Session(d.key, d.other, d.mine, d.theirs, true, true);
    after == Executed(before, s).holdings && (d.done <==> Executed(before, s).verdict.Done?)
  }

  /** Carries out one command, and says what it has done. */
  method Perform(book: TradeBook, c: Command, ghost past: seq<Deed>) returns (ghost d: Deed)
    requires book.Valid() && Tells(past, book.active)
    modifies book
    ensures book.Valid() && Tells(past + [d], book.active) && Reports(c, d)
    ensures d.Nothing? && !c.Meanwhile? ==> book.active == old(book.active) && book.holdings == old(book.holdings)
    ensures !d.Trades? && !c.Meanwhile? ==> book.holdings == old(book.holdings)
    ensures d.Trades? ==> GoesAhead(past, d, old(book.holdings), book.holdings)
  {
    if c.Stage? || c.Unstage? || c.Accept? {
      d := PerformInSession(book, c, past);
    } else if c.Execute? {
      d := PerformTrade(book, c.player, past);
    } else {
      d := PerformOnSessions(book, c, past);
    }
    if d.Nothing? {
      NothingIsTold(past, book.active);
    }
  }

  /** Staging, taking back and accepting in the trade that is found. */
  method PerformInSession(book: TradeBook, c: Command, ghost past: seq<Deed>) returns (ghost d: Deed)
    requires book.Valid() && Tells(past, book.active) && (c.Stage? || c.Unstage? || c.Accept?)
    modifies book`active, book`log
    ensures book.Valid() && Reports(c, d) && !d.Trades?
    ensures d.Nothing? ==> book.active == old(book.active)
    ensures !d.Nothing? ==> Tells(past + [d], book.active)
  {
    ghost var active := book.active;
    d := Nothing;
    match c {
      case Stage(p, ref) =>
        var staged, key := book.StageItem(p, ref);
        if staged.Ok? {
          TouchIsTold(past, active, key.value, p, Event.Stage(SideOf(active[key.value], p), ref));
          d := Stages(key.value, p, ref);
        }
      case Unstage(p, ref) =>
        var unstaged, key := book.UnstageItem(p, ref);
        if unstaged.Ok? {
          TouchIsTold(past, active, key.value, p, Event.Unstage(SideOf(active[key.value], p), ref));
          d := Unstages(key.value, p, ref);
        }
      case Accept(p) =>
        var accepted, key := book.AcceptTrade(p);
        if accepted.Ok? {
          TouchIsTold(past, active, key.value, p, Event.Accept(SideOf(active[key.value], p)));
          d := Accepts(key.value, p);
        }
    }
  }

  /** Opening and cancelling trades, and what happens to players and holdings otherwise. */
  method PerformOnSessions(book: TradeBook, c: Command, ghost past: seq<Deed>) returns (ghost d: Deed)
    requires book.Valid() && Tells(past, book.active) && (c.Open? || c.Cancel? || c.Meanwhile?)
    modifies book
    ensures book.Valid() && Reports(c, d) && !d.Trades?
    ensures d.Nothing? ==> book.active == old(book.active)
    ensures !d.Nothing? ==> Tells(past + [d], book.active)
    ensures !c.Meanwhile? ==> book.holdings == old(book.holdings)
  {
    ghost var active := book.active;
    d := Nothing;
    match c {
      case Open(a, b) =>
        var started := book.Open(a, b);
        if started.Ok? {
          OpenIsTold(past, active, a, b);
          d := Opens(a, b);
        }
      case Cancel(p) =>
        var other, key := book.Cancel(p);
        if key.Some? {
          EndIsTold(past, active, Cancels(key.value), {key.value});
          d := Cancels(key.value);
        }
      case Meanwhile(online, dead, holdings) =>
        book.online, book.dead, book.holdings := online, dead, holdings;
    }
  }

  /** A trade that goes ahead is told by its deed, and ends at most the sessions it names. */
  lemma TradeIsTold(past: seq<Deed>, active: Sessions, log: Logs, key: PlayerId, before: Holdings, after: Holdings,
                    done: bool) returns (d: Deed)
    requires Tells(past, active) && Recorded(active, log) && key in active && FreshConsent(log[key])
    requires after == Executed(before, active[key]).holdings && (done <==> Executed(before, active[key]).verdict.Done?)
    ensures d.Trades? && GoesAhead(past, d, before, after)
    ensures Tells(past + [d], if done then active - {key, active[key].counterparty} else active)
  {
    var s := active[key];
    assert Honest(past, key, s);
    FreshMeansAccepted(active, log, key);
    d := ConsentIsTold(past, key, s, before, after, done);
    ExchangeIsTold(past, active, key, d);
  }

  lemma FreshMeansAccepted(active: Sessions, log: Logs, key: PlayerId)
    requires Recorded(active, log) && key in active && FreshConsent(log[key])
    ensures active[key].initiatorAccepted && active[key].counterpartyAccepted
  {
    assert Matches(key, active[key], log[key]);
    FlagsAreStandingConsent(key, active[key].counterparty, log[key]);
  }

  lemma ExchangeIsTold(past: seq<Deed>, active: Sessions, key: PlayerId, d: Deed)
    requires Tells(past, active) && key in active && d.Trades? && d.key == key && d.other == active[key].counterparty
    ensures Tells(past + [d], if d.done then active - {key, d.other} else active)
  {
    EndIsTold(past, active, d, if d.done then {key, d.other} else {});
    assert active - {} == active;
  }

  lemma ConsentIsTold(past: seq<Deed>, key: PlayerId, s: Session, before: Holdings, after: Holdings, done: bool)
    returns (d: Deed)
    requires Honest(past, key, s) && s.initiatorAccepted && s.counterpartyAccepted
    requires after == Executed(before, s).holdings && (done <==> Executed(before, s).verdict.Done?)
    ensures d == Trades(key, s.counterparty, s.initiatorItems, s.counterpartyItems, done)
    ensures GoesAhead(past, d, before, after)
  {
    d := Trades(key, s.counterparty, s.initiatorItems, s.counterpartyItems, done);
    assert s == Session(key, s.counterparty, s.initiatorItems, s.counterpartyItems, true, true);
  }

  method PerformTrade(book: TradeBook, p: PlayerId, ghost past: seq<Deed>) returns (ghost d: Deed)
    requires book.Valid() && Tells(past, book.active)
    modifies book
    ensures book.Valid() && (d.Nothing? || d.Trades?)
    ensures d.Nothing? ==> book.active == old(book.active) && book.holdings == old(book.holdings)
    ensures d.Trades? ==> Tells(past + [d], book.active) && GoesAhead(past, d, old(book.holdings), book.holdings)
  {
    ghost var active, log, before := book.active, book.log, book.holdings;
    var traded, key := book.Execute(p);
    d := Nothing;
    if traded.Ok? || book.holdings != old(book.holdings) {
      d := TradeIsTold(past, active, log, key.value, before, book.holdings, traded.Ok?);
    }
  }

  /** The holdings after each command; only trades that go ahead, and the world outside, change them. */
  ghost predicate Traded(cs: seq<Command>, deeds: seq<Deed>, held: seq<Holdings>)
    requires |deeds| == |cs| && |held| == |cs| + 1
  {
    forall i | 0 <= i < |cs| ::
      && Reports(cs[i], deeds[i])
      && (deeds[i].Trades? ==> GoesAhead(deeds[..i], deeds[i], held[i], held[i + 1]))
      && (!deeds[i].Trades? && !cs[i].Meanwhile? ==> held[i + 1] == held[i])
  }

  /**
   * Every run of trade commands, with anything happening to players and holdings in between: whenever a
   * trade goes ahead, the one who opened it accepted it after every change to either offer, the other
   * accepted it after every change to the first one's offer, and what is exchanged is what each of them
   * has staged and not taken back.
   */
  method Run(players: set<PlayerId>, h: Holdings, cs: seq<Command>)
    returns (book: TradeBook, ghost deeds: seq<Deed>, ghost held: seq<Holdings>)
    ensures |deeds| == |cs| && |held| == |cs| + 1 && Traded(cs, deeds, held)
    ensures held[0] == h && book.holdings == held[|cs|]
    ensures Tells(deeds, book.active)
  {
    book := new TradeBook(players, h);
    deeds, held := [], [h];
    for i := 0 to |cs|
      invariant book.Valid() && fresh(book)
      invariant |deeds| == i && |held| == i + 1 && held[0] == h && held[i] == book.holdings
      invariant Tells(deeds, book.active) && Traded(cs[..i], deeds, held)
    {
      ghost var d := Perform(book, cs[i], deeds);
      TradedStep(cs[..i], cs[i], deeds, d, held, book.holdings);
      assert cs[..i] + [cs[i]] == cs[..i + 1];
      deeds, held := deeds + [d], held + [book.holdings];
    }
    assert cs[..|cs|] == cs;
  }

  lemma TradedStep(cs: seq<Command>, c: Command, deeds: seq<Deed>, d: Deed, held: seq<Holdings>, after: Holdings)
    requires |deeds| == |cs| && |held| == |cs| + 1 && Traded(cs, deeds, held) && Reports(c, d)
    requires d.Trades? ==> GoesAhead(deeds, d, held[|cs|], after)
    requires !d.Trades? && !c.Meanwhile? ==> after == held[|cs|]
    ensures Traded(cs + [c], deeds + [d], held + [after])
  {
    var longer := deeds + [d];
    assert longer[..|cs|] == deeds && forall j | 0 <= j < |cs| :: longer[..j] == deeds[..j];
  }
}
