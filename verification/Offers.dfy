module Offers {
  // Which references a side offers: those whose staging stands in the history, in the order of staging.
  import opened Prelude
  import opened Items
  import opened Trade

  /** What an event means for one side's offer. */
  datatype Mark = Puts(ref: Reference) | Takes(ref: Reference) | Clears | Leaves

  /** Some staging of the reference has not been taken back since. */
  predicate Holds(ms: seq<Mark>, ref: Reference) {
    exists i :: 0 <= i < |ms| && ms[i] == Puts(ref) && forall j | i < j < |ms| :: ms[j] != Takes(ref) && ms[j] != Clears
  }

  predicate LastPut(ms: seq<Mark>, ref: Reference, i: int) {
    0 <= i < |ms| && ms[i] == Puts(ref) && forall j | i < j < |ms| :: ms[j] != Puts(ref)
  }

  predicate PutBefore(ms: seq<Mark>, a: Reference, b: Reference) {
    exists i, j :: 0 <= i < j < |ms| && LastPut(ms, a, i) && LastPut(ms, b, j)
  }

  /** The offer lists exactly the references that are held, each once, in the order of their last staging. */
  ghost predicate Shows(ms: seq<Mark>, offer: seq<Reference>) {
    && (forall ref :: ref in offer <==> Holds(ms, ref))
    && forall a, b | 0 <= a < b < |offer| :: offer[a] != offer[b] && PutBefore(ms, offer[a], offer[b])
  }

  lemma HoldsStep(ms: seq<Mark>, m: Mark, ref: Reference)
    ensures Holds(ms + [m], ref) <==> m == Puts(ref) || (Holds(ms, ref) && m != Takes(ref) && m != Clears)
  {
    var all := ms + [m];
    assert all[|ms|] == m && forall i | 0 <= i < |ms| :: all[i] == ms[i];
    if Holds(all, ref) && m != Puts(ref) {
      var i :| 0 <= i < |all| && all[i] == Puts(ref) && forall j | i < j < |all| :: all[j] != Takes(ref) && all[j] != Clears;
      assert ms[i] == Puts(ref) && all[|ms|] != Takes(ref);
      forall j | i < j < |ms| ensures ms[j] != Takes(ref) && ms[j] != Clears {
        assert all[j] == ms[j];
      }
    }
    if Holds(ms, ref) && m != Takes(ref) && m != Clears {
      var i :| 0 <= i < |ms| && ms[i] == Puts(ref) && forall j | i < j < |ms| :: ms[j] != Takes(ref) && ms[j] != Clears;
      assert all[i] == Puts(ref);
    }
    if m == Puts(ref) {
      assert all[|ms|] == Puts(ref);
    }
  }

  lemma PutBeforeStep(ms: seq<Mark>, m: Mark, a: Reference, b: Reference)
    requires PutBefore(ms, a, b) && m != Puts(a) && m != Puts(b)
    ensures PutBefore(ms + [m], a, b)
  {
    var all := ms + [m];
    var i, j :| 0 <= i < j < |ms| && LastPut(ms, a, i) && LastPut(ms, b, j);
    assert LastPut(all, a, i) && LastPut(all, b, j);
  }

  lemma PutLast(ms: seq<Mark>, a: Reference, b: Reference)
    requires Holds(ms, a) && a != b
    ensures PutBefore(ms + [Puts(b)], a, b)
  {
    var i :| 0 <= i < |ms| && ms[i] == Puts(a);
    var last := LastPutOf(ms, a, i);
    var all := ms + [Puts(b)];
    assert LastPut(all, a, last) && LastPut(all, b, |ms|);
  }

  lemma LastPutOf(ms: seq<Mark>, a: Reference, i: int) returns (last: int)
    requires 0 <= i < |ms| && ms[i] == Puts(a)
    ensures LastPut(ms, a, last)
    decreases |ms| - i
  {
    if j :| i < j < |ms| && ms[j] == Puts(a) {
      last := LastPutOf(ms, a, j);
    } else {
      last := i;
    }
  }

  /** How an offer goes on showing its history, mark by mark. */
  lemma StagingShows(ms: seq<Mark>, offer: seq<Reference>, ref: Reference)
    requires Shows(ms, offer) && ref !in offer
    ensures Shows(ms + [Puts(ref)], offer + [ref])
  {
    var longer := offer + [ref];
    forall x ensures x in longer <==> Holds(ms + [Puts(ref)], x) {
      HoldsStep(ms, Puts(ref), x);
    }
    forall a, b | 0 <= a < b < |longer| ensures longer[a] != longer[b] && PutBefore(ms + [Puts(ref)], longer[a], longer[b]) {
      assert longer[a] in offer && Holds(ms, longer[a]);
      if b < |offer| {
        PutBeforeStep(ms, Puts(ref), longer[a], longer[b]);
      } else {
        PutLast(ms, longer[a], ref);
      }
    }
  }

  lemma WithoutHolds(offer: seq<Reference>, i: nat, x: Reference)
    requires i < |offer| && forall a, b | 0 <= a < b < |offer| :: offer[a] != offer[b]
    ensures x in Without(offer, i) <==> x in offer && x != offer[i]
  {
    var less := Without(offer, i);
    if x in less {
      var k :| 0 <= k < |less| && less[k] == x;
      assert x == offer[if k < i then k else k + 1];
    }
    if x in offer && x != offer[i] {
      var k :| 0 <= k < |offer| && offer[k] == x;
      assert less[if k < i then k else k - 1] == x;
    }
  }

  lemma UnstagingShows(ms: seq<Mark>, offer: seq<Reference>, i: nat)
    requires Shows(ms, offer) && i < |offer|
    ensures Shows(ms + [Takes(offer[i])], Without(offer, i))
  {
    var ref, less := offer[i], Without(offer, i);
    forall x ensures x in less <==> Holds(ms + [Takes(ref)], x) {
      HoldsStep(ms, Takes(ref), x);
      WithoutHolds(offer, i, x);
    }
    forall a, b | 0 <= a < b < |less| ensures less[a] != less[b] && PutBefore(ms + [Takes(ref)], less[a], less[b]) {
      var p, q := if a < i then a else a + 1, if b < i then b else b + 1;
      assert less[a] == offer[p] && less[b] == offer[q];
      PutBeforeStep(ms, Takes(ref), offer[p], offer[q]);
    }
  }

  lemma OtherwiseShows(ms: seq<Mark>, offer: seq<Reference>, m: Mark)
    requires Shows(ms, offer) && (m.Leaves? || m.Clears?)
    ensures Shows(ms + [m], if m.Clears? then [] else offer)
  {
    forall x ensures Holds(ms + [m], x) <==> Holds(ms, x) && m.Leaves? {
      HoldsStep(ms, m, x);
    }
    forall a, b | 0 <= a < b < |offer| ensures PutBefore(ms + [m], offer[a], offer[b]) {
      PutBeforeStep(ms, m, offer[a], offer[b]);
    }
  }

  // ----- the offers of a session -----

  function MarkOf(e: Event, side: Side): Mark {
    match e
    case Stage(actor, ref) => if actor == side then Puts(ref) else Leaves
    case Unstage(actor, ref) => if actor == side then Takes(ref) else Leaves
    case Accept(_) => Leaves
  }

  function MarksOf(log: seq<Event>, side: Side): (ms: seq<Mark>)
    ensures |ms| == |log|
  {
    seq(|log|, k requires 0 <= k < |log| => MarkOf(log[k], side))
  }

  /** What one event does to the offer of one side, seen from its history. */
  lemma EventShows(s: Session, e: Event, ms: seq<Mark>, side: Side)
    requires Shows(ms, OfferOf(s, side)) && Touched(s, e).Ok?
    ensures Shows(ms + [MarkOf(e, side)], OfferOf(Touched(s, e).value, side))
    ensures |OfferOf(s, side)| <= 20 ==> |OfferOf(Touched(s, e).value, side)| <= 20
  {
    var offer := OfferOf(s, side);
    match e
    case Stage(actor, ref) =>
      if actor == side {
        StagingShows(ms, offer, ref);
      } else {
        OtherwiseShows(ms, offer, Leaves);
      }
    case Unstage(actor, ref) =>
      if actor == side {
        UnstagingShows(ms, offer, IndexOf(offer, ref));
      } else {
        OtherwiseShows(ms, offer, Leaves);
      }
    case Accept(_) => OtherwiseShows(ms, offer, Leaves);
  }

  /** The side's offer is what its history shows: see `Shows`; and it lists at most twenty references. */
  ghost predicate OfferStands(s: Session, log: seq<Event>, side: Side) {
    Shows(MarksOf(log, side), OfferOf(s, side)) && |OfferOf(s, side)| <= 20
  }

  lemma OfferStep(s: Session, log: seq<Event>, e: Event, side: Side)
    requires OfferStands(s, log, side) && Touched(s, e).Ok?
    ensures OfferStands(Touched(s, e).value, log + [e], side)
  {
    EventShows(s, e, MarksOf(log, side), side);
    assert MarksOf(log + [e], side) == MarksOf(log, side) + [MarkOf(e, side)];
  }

  lemma NothingOffered(initiator: PlayerId, counterparty: PlayerId, side: Side)
    ensures OfferStands(Trade.Opened(initiator, counterparty), [], side)
  {
    assert MarksOf([], side) == [];
  }

  /**
   * A side's offer holds a reference exactly if some staging of it by that side has not been taken back
   * since; it holds each once, in the order of their last staging, and at most twenty.
   */
  lemma {:induction false} OffersAreTheStandingStagings(initiator: PlayerId, counterparty: PlayerId, log: seq<Event>,
                                                         s: Session, side: Side)
    requires Replayed(initiator, counterparty, log) == Ok(s)
    ensures OfferStands(s, log, side)
    decreases |log|
  {
    if log == [] {
      NothingOffered(initiator, counterparty, side);
    } else {
      var front, e := log[..|log| - 1], log[|log| - 1];
      var before := Replayed(initiator, counterparty, front).value;
      assert Touched(before, e) == Ok(s);
      OffersAreTheStandingStagings(initiator, counterparty, front, before, side);
      OfferStep(before, front, e, side);
      assert front + [e] == log;
    }
  }

  /** A staging is refused exactly with twenty references on offer or that one; taking back, without it. */
  lemma RefusedExactly(s: Session, side: Side, ref: Reference)
    ensures Touched(s, Stage(side, ref)).Ok? <==> |OfferOf(s, side)| < 20 && ref !in OfferOf(s, side)
    ensures Touched(s, Unstage(side, ref)).Ok? <==> ref in OfferOf(s, side)
  {
  }
}
