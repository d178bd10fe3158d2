/** What the party commands do to the grouping of players. */
module PartyLaws {
  import opened Prelude
  import opened Parties

  /** The party a player is in, named by its leader. */
  function PartyOf(b: Book, p: PlayerId): Option<PlayerId> {
    if p in b.leaders then Some(p)
    else if p in b.memberships then Some(b.memberships[p])
    else None
  }

  predicate Together(b: Book, p: PlayerId, q: PlayerId) {
    PartyOf(b, p).Some? && PartyOf(b, p) == PartyOf(b, q)
  }

  /** `p` holds an invitation into the party of `q`. */
  predicate InvitedBy(b: Book, p: PlayerId, q: PlayerId) {
    p in b.invitations && PartyOf(b, q).Some? && PartyOf(b, q).value in b.invitations[p]
  }

  /** The party of `q` has asked for shared experience. */
  predicate Asking(b: Book, q: PlayerId) {
    PartyOf(b, q).Some? && PartyOf(b, q).value in b.requested
  }

  // ----- transferring leadership -----

  /** A transfer renames the party: who is together, who is invited where, which party asks, all stay. */
  lemma TransferOnlyRenames(b: Book, leader: PlayerId, heir: PlayerId)
    requires Inv(b) && Transferred(b, leader, heir).Ok?
    ensures var after := Transferred(b, leader, heir).value;
      && (forall p, q :: Together(after, p, q) <==> Together(b, p, q))
      && (forall p, q :: InvitedBy(after, p, q) <==> InvitedBy(b, p, q))
      && (forall q :: Asking(after, q) <==> Asking(b, q))
      && after.activity == b.activity && PartyOf(after, leader) == Some(heir)
  {
    var after := Transferred(b, leader, heir).value;
    forall q ensures PartyOf(after, q) == Renamed(PartyOf(b, q), leader, heir) {
      assert q in b.memberships ==> b.memberships[q] in b.leaders;
    }
    forall p, q
      ensures Together(after, p, q) <==> Together(b, p, q)
      ensures InvitedBy(after, p, q) <==> InvitedBy(b, p, q)
    {
      PartiesHaveLeaders(b, p);
      PartiesHaveLeaders(b, q);
      assert heir !in b.leaders && (p in b.invitations ==> b.invitations[p] <= b.leaders);
    }
    forall q ensures Asking(after, q) <==> Asking(b, q) {
      PartiesHaveLeaders(b, q);
    }
  }

  function Renamed(party: Option<PlayerId>, from: PlayerId, to: PlayerId): Option<PlayerId> {
    if party == Some(from) then Some(to) else party
  }

  lemma PartiesHaveLeaders(b: Book, p: PlayerId)
    requires Inv(b)
    ensures PartyOf(b, p).Some? ==> PartyOf(b, p).value in b.leaders
  {
  }

  lemma RenamedBack(s: set<PlayerId>, from: PlayerId, to: PlayerId)
    requires to !in s
    ensures RenamedIn(RenamedIn(s, from, to), to, from) == s
  {
  }

  /** Transferring back restores all collections. */
  lemma TransferThereAndBack(b: Book, leader: PlayerId, heir: PlayerId)
    requires Inv(b) && Transferred(b, leader, heir).Ok?
    ensures Transferred(Transferred(b, leader, heir).value, heir, leader) == Ok(b)
  {
    var there := Transferred(b, leader, heir).value;
    var back := Transferred(there, heir, leader).value;
    assert heir !in b.leaders && leader !in b.memberships;
    RenamedBack(b.requested, leader, heir);
    MembershipsComeBack(b, leader, heir);
    forall p | p in b.invitations ensures back.invitations[p] == b.invitations[p] {
      assert b.invitations[p] <= b.leaders;
      RenamedBack(b.invitations[p], leader, heir);
    }
    assert back.invitations == b.invitations;
    assert back.leaders == b.leaders;
  }

  lemma MembershipsComeBack(b: Book, leader: PlayerId, heir: PlayerId)
    requires Inv(b) && Transferred(b, leader, heir).Ok?
    ensures var there := Transferred(b, leader, heir).value;
      Promoted(there, heir, leader).memberships[heir := leader] == b.memberships
  {
    forall m | m in b.memberships ensures b.memberships[m] != heir && m != leader {
      assert b.memberships[m] in b.leaders;
    }
  }

  // ----- joining and leaving -----

  /** Leaving separates a player from his party and nobody else from anybody. */
  lemma LeavingTakesOnlyOneself(b: Book, p: PlayerId, q: PlayerId, r: PlayerId)
    requires Inv(b) && Left(b, p).Ok?
    requires q != p && r != p && q != r
    ensures Together(Left(b, p).value, q, r) <==> Together(b, q, r)
    ensures PartyOf(Left(b, p).value, p) == None
  {
    OutOfPartyIsSound(b, p);
    var after := Left(b, p).value;
    if p in b.leaders {
      if Members(b, p) == {} {
        assert q in b.memberships ==> (b.memberships[q] == p ==> q in Members(b, p));
        assert r in b.memberships ==> (b.memberships[r] == p ==> r in Members(b, p));
      } else {
        var heir := Heir(b, p);
        assert heir in Members(b, p);
        PartyAfterPromotion(b, p, heir, q);
        PartyAfterPromotion(b, p, heir, r);
        PartiesHaveLeaders(b, q);
        PartiesHaveLeaders(b, r);
      }
    } else {
      var rest := b.(memberships := b.memberships - {p});
      var leader := b.memberships[p];
      if Hollow(rest, leader) {
        HollowPartyVanishes(rest, leader);
        assert q in rest.memberships && rest.memberships[q] == leader ==> q in Members(rest, leader);
        assert r in rest.memberships && rest.memberships[r] == leader ==> r in Members(rest, leader);
      }
    }
  }

  lemma PartyAfterPromotion(b: Book, leader: PlayerId, heir: PlayerId, q: PlayerId)
    requires Inv(b) && leader in b.leaders && heir in Members(b, leader) && q != leader
    ensures PartyOf(Promoted(b, leader, heir), q) == Renamed(PartyOf(b, q), leader, heir)
  {
  }

  /** Accepting puts the joiner together with exactly the party that invited him. */
  lemma AcceptingJoinsExactlyOneParty(b: Book, p: PlayerId, leader: PlayerId, q: PlayerId, r: PlayerId)
    requires Inv(b) && Accepted(b, p, leader).Ok? && q != r
    ensures Together(Accepted(b, p, leader).value, q, r) <==>
              Together(b, q, r) || (q == p && PartyOf(b, r) == Some(leader)) || (r == p && PartyOf(b, q) == Some(leader))
    ensures p !in Accepted(b, p, leader).value.invitations
  {
    var joined := b.(memberships := b.memberships[p := leader], invitations := b.invitations - {p});
    var gone := HollowAmong(joined, Ascending(b.invitations[p]));
    SettlingIsSimultaneous(joined, Ascending(b.invitations[p]));
    assert p in Members(joined, leader);
    forall x | x in joined.memberships ensures joined.memberships[x] !in gone {
      assert x in Members(joined, joined.memberships[x]);
    }
    assert Accepted(b, p, leader).value == Without(joined, gone);
    forall x ensures PartyOf(Without(joined, gone), x) ==
                       if x in gone then None else if x == p then Some(leader) else PartyOf(b, x)
    {
      assert x in gone ==> x in b.leaders;
    }
    forall x | x in b.memberships ensures b.memberships[x] !in gone {
      assert joined.memberships[x] !in gone;
    }
  }

  // ----- parties without members and invitations -----

  function HollowLeaders(b: Book): set<PlayerId> {
    set l | l in b.leaders && Hollow(b, l)
  }

  predicate LeaderLeaves(b: Book, c: Command) {
    (c.Leave? && c.player in b.leaders) || (c.Remove? && c.player in b.leaders)
  }

  /** The survivor of a two-person party that invites nobody. */
  function LeftAlone(b: Book, leader: PlayerId): set<PlayerId> {
    if |Members(b, leader)| == 1 && !Invites(b, leader) then Members(b, leader) else {}
  }

  /** The survivor of a two-person party without invitations is left leading nobody; nothing else does this. */
  lemma HollowAfterLeaderLeaves(b: Book, leader: PlayerId)
    requires Consistent(b) && leader in b.leaders
    ensures HollowLeaders(LeaderGone(b, leader)) - HollowLeaders(b) == LeftAlone(b, leader)
  {
    var after := LeaderGone(b, leader);
    if Members(b, leader) == {} {
      forall x | x in after.leaders ensures Hollow(after, x) <==> Hollow(b, x) {
        SameBondsAfterDisbanding(b, leader, x);
      }
    } else {
      var heir := Heir(b, leader);
      BondsOfTheHeir(b, leader, heir);
      forall x | x in after.leaders && x != heir ensures Hollow(after, x) <==> Hollow(b, x) {
        SameBondsAfterPromotion(b, leader, heir, x);
      }
      assert heir !in HollowLeaders(b);
      assert Members(b, leader) == {heir} + (Members(b, leader) - {heir});
    }
  }

  lemma SameBondsAfterDisbanding(b: Book, leader: PlayerId, x: PlayerId)
    requires x != leader
    ensures Members(Disbanded(b, leader), x) == Members(b, x)
    ensures Invites(Disbanded(b, leader), x) <==> Invites(b, x)
  {
    var after := Disbanded(b, leader);
    if Invites(b, x) {
      var p :| p in b.invitations && x in b.invitations[p];
      assert x in b.invitations[p] - {leader};
      assert p in after.invitations && x in after.invitations[p];
    }
  }

  lemma SameBondsAfterPromotion(b: Book, leader: PlayerId, heir: PlayerId, x: PlayerId)
    requires Consistent(b) && leader in b.leaders && heir in Members(b, leader) && x != leader && x != heir
    ensures Members(Promoted(b, leader, heir), x) == Members(b, x)
    ensures Invites(Promoted(b, leader, heir), x) <==> Invites(b, x)
  {
    var after := Promoted(b, leader, heir);
    if Invites(b, x) {
      var p :| p in b.invitations && x in b.invitations[p];
      assert p in after.invitations && x in after.invitations[p];
    }
  }

  lemma BondsOfTheHeir(b: Book, leader: PlayerId, heir: PlayerId)
    requires Consistent(b) && leader in b.leaders && heir in Members(b, leader)
    ensures Members(Promoted(b, leader, heir), heir) == Members(b, leader) - {heir}
    ensures Invites(Promoted(b, leader, heir), heir) <==> Invites(b, leader)
  {
    var after := Promoted(b, leader, heir);
    assert heir !in b.leaders;
    forall m | m in b.memberships ensures b.memberships[m] != heir {
      assert b.memberships[m] in b.leaders;
    }
    if Invites(b, leader) {
      var p :| p in b.invitations && leader in b.invitations[p];
      assert p in after.invitations && heir in after.invitations[p];
    }
    if Invites(after, heir) {
      var p :| p in after.invitations && heir in after.invitations[p];
      assert p in b.invitations && b.invitations[p] <= b.leaders;
    }
  }

  /** Bonds seen in a smaller book: the same members and invitations make the same leaders hollow. */
  lemma SettlingLeavesNoNewHollow(b: Book, leaders: seq<PlayerId>)
    requires NoEmptySets(b)
    ensures HollowLeaders(SettledEach(b, leaders)) == HollowLeaders(b) - HollowAmong(b, leaders)
  {
    SettlingIsSimultaneous(b, leaders);
    var after := SettledEach(b, leaders);
    forall x ensures Members(after, x) == Members(b, x) && (Invites(after, x) <==> Invites(b, x)) {}
  }

  /** Dropping one's invitations settles every party that was waiting for nobody else. */
  lemma DroppingLeavesNoNewHollow(b: Book, p: PlayerId)
    requires Consistent(b)
    ensures HollowLeaders(InvitationsDropped(b, p)) <= HollowLeaders(b)
  {
    if p in b.invitations {
      var rest := b.(invitations := b.invitations - {p});
      SettlingLeavesNoNewHollow(rest, Ascending(b.invitations[p]));
      forall x | x in HollowLeaders(rest) && x !in b.invitations[p] ensures x in HollowLeaders(b) {
        assert Members(rest, x) == Members(b, x);
        forall q | q in b.invitations ensures x !in b.invitations[q] {
          assert q == p || (q in rest.invitations && rest.invitations[q] == b.invitations[q]);
        }
      }
    }
  }

  lemma MemberLeavesNoNewHollow(b: Book, p: PlayerId)
    requires Consistent(b) && p in b.memberships
    ensures HollowLeaders(OutOfParty(b, p)) <= HollowLeaders(b)
  {
    var leader := b.memberships[p];
    var rest := b.(memberships := b.memberships - {p});
    forall x | x != leader ensures Hollow(rest, x) <==> Hollow(b, x) {
      assert Members(rest, x) == Members(b, x);
    }
    if Hollow(rest, leader) {
      HollowPartyVanishes(rest, leader);
      var after := Without(rest, {leader});
      forall x ensures Members(after, x) == Members(rest, x) && (Invites(after, x) <==> Invites(rest, x)) {}
    }
  }

  lemma AcceptLeavesNoNewHollow(b: Book, p: PlayerId, leader: PlayerId)
    requires Inv(b) && Accepted(b, p, leader).Ok?
    ensures HollowLeaders(Accepted(b, p, leader).value) <= HollowLeaders(b)
  {
    var joined := b.(memberships := b.memberships[p := leader]);
    DroppingLeavesNoNewHollow(joined, p);
    forall x | x in HollowLeaders(joined) ensures x in HollowLeaders(b) {
      forall m | m in Members(b, x) ensures m in Members(joined, x) {}
    }
  }

  lemma RevokeLeavesNoNewHollow(b: Book, leader: PlayerId, p: PlayerId)
    requires Inv(b) && Revoked(b, leader, p).Ok?
    ensures HollowLeaders(Revoked(b, leader, p).value) <= HollowLeaders(b)
  {
    var left := b.invitations[p] - {leader};
    var rest := b.(invitations := if left == {} then b.invitations - {p} else b.invitations[p := left]);
    forall x | x != leader && Hollow(rest, x) ensures Hollow(b, x) {
      assert Members(rest, x) == Members(b, x);
      forall q | q in b.invitations ensures x !in b.invitations[q] {
        assert x in b.invitations[p] ==> x in left;
        assert x in b.invitations[q] ==> q in rest.invitations;
      }
    }
    if Hollow(rest, leader) {
      HollowPartyVanishes(rest, leader);
      var after := Without(rest, {leader});
      forall x ensures Members(after, x) == Members(rest, x) && (Invites(after, x) <==> Invites(rest, x)) {}
    }
  }

  lemma InviteLeavesNoNewHollow(b: Book, leader: PlayerId, p: PlayerId)
    requires Inv(b) && Invited(b, leader, p).Ok?
    ensures HollowLeaders(Invited(b, leader, p).value) <= HollowLeaders(b)
  {
    var after := Invited(b, leader, p).value;
    assert p in after.invitations && leader in after.invitations[p];
    forall x | x in HollowLeaders(after) ensures x in HollowLeaders(b) {
      assert Members(after, x) == Members(b, x);
      forall q | q in b.invitations ensures x !in b.invitations[q] {
        assert b.invitations[q] <= after.invitations[q];
      }
    }
  }

  lemma TransferLeavesNoNewHollow(b: Book, leader: PlayerId, heir: PlayerId)
    requires Inv(b) && Transferred(b, leader, heir).Ok?
    ensures HollowLeaders(Transferred(b, leader, heir).value) <= HollowLeaders(b)
  {
    var mid := Promoted(b, leader, heir);
    var after := Transferred(b, leader, heir).value;
    assert leader in Members(after, heir);
    forall x | x in HollowLeaders(after) ensures x in HollowLeaders(b) {
      SameBondsAfterPromotion(b, leader, heir, x);
      forall m | m in Members(mid, x) ensures m in Members(after, x) {}
      assert Invites(after, x) <==> Invites(mid, x);
    }
  }

  /**
   * The commands of a session never leave a leader without members and invitations, except for a
   * leader leaving (`HollowAfterLeaderLeaves`) and a restore of a party without members.
   */
  lemma NoNewHollow(b: Book, c: Command)
    requires Inv(b) && !LeaderLeaves(b, c)
    ensures HollowLeaders(After(b, c)) <= HollowLeaders(b) + if c.Restore? && c.members == [] then {c.leader} else {}
  {
    if Outcome(b, c).Ok? {
      var after := After(b, c);
      match c
      case Invite(leader, p) => InviteLeavesNoNewHollow(b, leader, p);
      case Accept(p, leader) => AcceptLeavesNoNewHollow(b, p, leader);
      case Leave(p) => MemberLeavesNoNewHollow(b, p);
      case Transfer(leader, heir) => TransferLeavesNoNewHollow(b, leader, heir);
      case Revoke(leader, p) => RevokeLeavesNoNewHollow(b, leader, p);
      case Restore(leader, members) =>
        assert members != [] ==> members[0] in Members(after, leader);
        forall x, m | m in Members(b, x) ensures m in Members(after, x) {}
        forall x ensures Invites(after, x) <==> Invites(b, x) {}
      case AddExisting(leader, p) =>
        forall x, m | m in Members(b, x) ensures m in Members(after, x) {}
        forall x ensures Invites(after, x) <==> Invites(b, x) {}
      case Request(_, _) => SameBonds(b, after);
      case Mark(_, _) => SameBonds(b, after);
      case Join(_) => SameBonds(b, after);
      case Remove(p) =>
        var gone := b.(online := b.online - {p}, activity := b.activity - {p});
        SameBonds(b, gone);
        OutOfPartyIsSound(gone, p);
        if p in b.memberships {
          MemberLeavesNoNewHollow(gone, p);
        }
        DroppingLeavesNoNewHollow(OutOfParty(gone, p), p);
    }
  }

  /** The same for a leader who goes offline. */
  lemma HollowAfterLeaderGoesOffline(b: Book, p: PlayerId)
    requires Inv(b) && p in b.leaders
    ensures HollowLeaders(After(b, Remove(p))) - HollowLeaders(b) == LeftAlone(b, p)
  {
    var gone := b.(online := b.online - {p}, activity := b.activity - {p});
    SameBonds(b, gone);
    SameSurvivor(b, gone, p);
    HollowAfterLeaderDropsOut(gone, p);
    assert Outcome(b, Remove(p)) == Ok(InvitationsDropped(OutOfParty(gone, p), p));
  }

  lemma HollowAfterLeaderDropsOut(b: Book, p: PlayerId)
    requires Consistent(b) && p in b.leaders
    ensures HollowLeaders(InvitationsDropped(OutOfParty(b, p), p)) - HollowLeaders(b) == LeftAlone(b, p)
  {
    HollowAfterLeaderLeaves(b, p);
    OutOfPartyIsSound(b, p);
    DroppingLeavesNoNewHollow(OutOfParty(b, p), p);
    SurvivorsStayHollow(b, p);
    NewOnes(HollowLeaders(b), HollowLeaders(OutOfParty(b, p)), HollowLeaders(InvitationsDropped(OutOfParty(b, p), p)),
            LeftAlone(b, p));
  }

  lemma SurvivorsStayHollow(b: Book, p: PlayerId)
    requires Consistent(b) && p in b.leaders
    ensures LeftAlone(b, p) <= HollowLeaders(InvitationsDropped(OutOfParty(b, p), p))
  {
    var out := OutOfParty(b, p);
    HollowAfterLeaderLeaves(b, p);
    OutOfPartyIsSound(b, p);
    forall heir | heir in LeftAlone(b, p) ensures Hollow(InvitationsDropped(out, p), heir) {
      assert heir in HollowLeaders(out) && heir !in b.leaders;
      HollowStays(out, p, heir);
    }
  }

  lemma NewOnes<T>(h0: set<T>, h1: set<T>, h2: set<T>, l: set<T>)
    requires h1 - h0 == l && l <= h2 <= h1
    ensures h2 - h0 == l
  {
  }

  lemma HollowStays(b: Book, p: PlayerId, leader: PlayerId)
    requires Consistent(b) && Hollow(b, leader)
    ensures Hollow(InvitationsDropped(b, p), leader)
  {
    if p in b.invitations {
      var rest := b.(invitations := b.invitations - {p});
      assert leader !in b.invitations[p];
      assert Members(rest, leader) == {} && !Invites(rest, leader);
      SettlingLeavesNoNewHollow(rest, Ascending(b.invitations[p]));
      assert leader in HollowLeaders(InvitationsDropped(b, p));
    }
  }

  lemma SameBonds(b: Book, after: Book)
    requires after.memberships == b.memberships && after.invitations == b.invitations && after.leaders == b.leaders
    ensures HollowLeaders(after) == HollowLeaders(b)
  {
    forall x ensures Members(after, x) == Members(b, x) && (Invites(after, x) <==> Invites(b, x)) {}
  }

  lemma SameSurvivor(b: Book, after: Book, leader: PlayerId)
    requires after.memberships == b.memberships && after.invitations == b.invitations
    ensures LeftAlone(after, leader) == LeftAlone(b, leader)
  {
    assert Members(after, leader) == Members(b, leader) && (Invites(after, leader) <==> Invites(b, leader));
  }

  // ----- persisted parties -----

  type PartyRecord = (PlayerId, seq<PlayerId>)

  ghost function RecordsOf(b: Book, leaders: seq<PlayerId>): seq<PartyRecord>
    decreases |leaders|
  {
    if leaders == [] then [] else [(leaders[0], Ascending(Members(b, leaders[0])))] + RecordsOf(b, leaders[1..])
  }

  function RestoredAll(b: Book, records: seq<PartyRecord>): Result<Book>
    decreases |records|
  {
    if records == [] then Ok(b)
    else
      match Restored(b, records[0].0, records[0].1)
      case Err => Err
      case Ok(next) => RestoredAll(next, records[1..])
  }

  /** A book in which only these leaders' parties have come back. */
  function Partly(b: Book, leaders: set<PlayerId>): Book {
    Book(b.online, leaders, map m | m in b.memberships && b.memberships[m] in leaders :: b.memberships[m], map[], {}, map[])
  }

  lemma OneMoreParty(b: Book, done: set<PlayerId>, leader: PlayerId)
    requires Inv(b) && done <= b.leaders && leader in b.leaders && leader !in done
    ensures Restored(Partly(b, done), leader, Ascending(Members(b, leader))) == Ok(Partly(b, done + {leader}))
  {
    var members := Ascending(Members(b, leader));
    var before := Partly(b, done);
    forall i, j | 0 <= i < j < |members| ensures members[i] != members[j] {}
    assert leader !in members;
    assert !Affiliated(before, leader);
    forall m | m in members ensures m in before.online && !Affiliated(before, m) {
      assert m in Members(b, leader);
    }
    assert before.memberships + (map m | m in members :: leader) == Partly(b, done + {leader}).memberships;
  }

  function AsSet(ids: seq<PlayerId>): set<PlayerId> {
    set l | l in ids
  }

  lemma {:induction false} PartiesComeBackFrom(b: Book, done: set<PlayerId>, rest: seq<PlayerId>)
    requires Inv(b) && StrictlyAscending(rest) && done <= b.leaders
    requires forall l | l in rest :: l in b.leaders && l !in done
    ensures RestoredAll(Partly(b, done), RecordsOf(b, rest)) == Ok(Partly(b, done + AsSet(rest)))
    decreases |rest|
  {
    if rest == [] {
      assert done + AsSet(rest) == done;
    } else {
      OneMoreParty(b, done, rest[0]);
      forall l | l in rest[1..] ensures l in b.leaders && l !in done + {rest[0]} {
        TailOf(rest, l);
      }
      PartiesComeBackFrom(b, done + {rest[0]}, rest[1..]);
      assert AsSet(rest) == {rest[0]} + AsSet(rest[1..]) by {
        assert rest == [rest[0]] + rest[1..];
      }
      assert done + {rest[0]} + AsSet(rest[1..]) == done + AsSet(rest);
    }
  }

  /** Restoring every written party, in order, brings back exactly the leaders and members. */
  lemma {:induction false} PartiesComeBack(b: Book)
    requires Inv(b)
    ensures RestoredAll(Book(b.online, {}, map[], map[], {}, map[]), RecordsOf(b, Ascending(b.leaders)))
         == Ok(Book(b.online, b.leaders, b.memberships, map[], {}, map[]))
  {
    var ls, none: set<PlayerId> := Ascending(b.leaders), {};
    PartiesComeBackFrom(b, none, ls);
    assert none + AsSet(ls) == b.leaders;
    NoneAndAll(b);
  }

  lemma NoneAndAll(b: Book)
    requires Inv(b)
    ensures Partly(b, {}) == Book(b.online, {}, map[], map[], {}, map[])
    ensures Partly(b, b.leaders) == Book(b.online, b.leaders, b.memberships, map[], {}, map[])
  {
    assert Partly(b, b.leaders).memberships == b.memberships;
  }

  /** Adding a player his future leader has invited leaves him invited by his own leader. */
  lemma AddingKeepsTheInvitation()
    ensures !NoSelfInvites(Run(EMPTY, [Join(1), Join(2), Invite(1, 2), AddExisting(1, 2)]))
  {
    var cs := [Join(1), Join(2), Invite(1, 2), AddExisting(1, 2)];
    assert cs[..3] == [Join(1), Join(2), Invite(1, 2)] && cs[..3][..2] == [Join(1), Join(2)];
    assert cs[..3][..2][..1] == [Join(1)] && cs[..3][..2][..1][..0] == [];
    var two := Run(EMPTY, cs[..3][..2]);
    assert two == EMPTY.(online := {1, 2}) by {
      assert Run(EMPTY, cs[..3][..2][..1]) == EMPTY.(online := {1});
    }
    var three := Run(EMPTY, cs[..3]);
    assert three == After(two, Invite(1, 2));
    assert 2 in three.invitations && 1 in three.invitations[2];
    var four := Run(EMPTY, cs);
    assert four == After(three, AddExisting(1, 2));
    assert 2 in four.memberships && four.memberships[2] == 1;
  }

  const ASKED := Book({1, 2}, {1}, map[], map[2 := {1}], {}, map[])
  const PAIR := Book({1, 2}, {1}, map[2 := 1], map[], {}, map[])
  const WIDOW := Book({1, 2}, {2}, map[], map[], {}, map[])

  lemma PairMeets()
    ensures After(EMPTY.(online := {1, 2}), Invite(1, 2)) == ASKED
  {
    var none: set<PlayerId> := {};
    assert none + {1} == {1};
  }

  lemma PairForms()
    ensures After(ASKED, Accept(2, 1)) == PAIR
  {
    var joined := ASKED.(memberships := map[2 := 1]);
    var rest := joined.(invitations := joined.invitations - {2});
    SameList(Ascending({1}), [1]);
    assert rest == PAIR && 2 in Members(rest, 1);
    assert SettledEach(rest, [1]) == SettledEach(rest, []);
  }

  lemma PairParts()
    ensures After(PAIR, Leave(1)) == WIDOW && HollowLeaders(WIDOW) == {2}
  {
    assert Members(PAIR, 1) == {2};
    SameList(Ascending({2}), [2]);
    assert Promoted(PAIR, 1, 2) == WIDOW;
    assert !Invites(WIDOW, 2) && Members(WIDOW, 2) == {};
  }

  /** Two players form a party and its leader leaves: the other one leads nobody. */
  lemma SurvivorLeadsNobody()
    ensures HollowLeaders(Run(EMPTY, [Join(1), Join(2), Invite(1, 2), Accept(2, 1), Leave(1)])) == {2}
  {
    var cs := [Join(1), Join(2), Invite(1, 2), Accept(2, 1), Leave(1)];
    assert cs[..4] == [Join(1), Join(2), Invite(1, 2), Accept(2, 1)] && cs[..4][..3] == [Join(1), Join(2), Invite(1, 2)];
    assert cs[..4][..3][..2] == [Join(1), Join(2)] && cs[..4][..3][..2][..1] == [Join(1)] && cs[..4][..3][..2][..1][..0] == [];
    var two := Run(EMPTY, cs[..4][..3][..2]);
    assert two == EMPTY.(online := {1, 2}) by {
      assert Run(EMPTY, cs[..4][..3][..2][..1]) == EMPTY.(online := {1});
    }
    var three := Run(EMPTY, cs[..4][..3]);
    PairMeets();
    assert three == ASKED;
    PairForms();
    PairParts();
  }
}
