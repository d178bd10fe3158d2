/** Who leads, who belongs and who is invited after each party command, player by player. */
module PartyRoles {
  import opened Prelude
  import opened Parties
  import opened PartyLaws

  // ----- succession -----

  /** `h` takes over the party of `p`: the lowest of its members leads all the others, and `p` has no party. */
  predicate Succeeds(b: Book, after: Book, p: PlayerId, h: PlayerId) {
    && h in Members(b, p) && (forall m | m in Members(b, p) :: h <= m && PartyOf(after, m) == Some(h))
    && h in after.leaders && h !in after.memberships && PartyOf(after, p) == None
    && (h in after.requested <==> p in b.requested)
    && (forall x | x != p && PartyOf(b, x) != Some(p) && x !in b.leaders :: PartyOf(after, x) == PartyOf(b, x))
  }

  /** The only invitation into the party of `p` is one to himself, and there is a single member. */
  predicate Vanishing(b: Book, p: PlayerId) {
    && |Members(b, p)| == 1 && p in b.invitations && p in b.invitations[p]
    && forall q | q in b.invitations && q != p :: p !in b.invitations[q]
  }

  lemma HeirIsLowest(b: Book, p: PlayerId)
    requires Members(b, p) != {}
    ensures Heir(b, p) in Members(b, p) && forall m | m in Members(b, p) :: Heir(b, p) <= m
  {
    var ids := Ascending(Members(b, p));
    assert exists m :: m in Members(b, p);
    assert ids[0] in ids;
    forall m | m in Members(b, p) ensures ids[0] <= m {
      assert m in ids;
    }
  }

  /** A leader who leaves is succeeded by the lowest of his members, who then leads all the others. */
  lemma LowestMemberSucceeds(b: Book, p: PlayerId)
    requires Inv(b) && p in b.leaders && Members(b, p) != {}
    ensures Outcome(b, Leave(p)).Ok? && exists h :: Succeeds(b, After(b, Leave(p)), p, h)
  {
    var h := Heir(b, p);
    HeirIsLowest(b, p);
    PromotedSucceeds(b, p, h);
    assert Succeeds(b, After(b, Leave(p)), p, h);
  }

  lemma PromotedSucceeds(b: Book, p: PlayerId, h: PlayerId)
    requires Consistent(b) && p in b.leaders && h in Members(b, p) && forall m | m in Members(b, p) :: h <= m
    ensures Succeeds(b, Promoted(b, p, h), p, h)
    ensures Members(Promoted(b, p, h), h) == Members(b, p) - {h}
    ensures forall q | q in b.invitations :: h in Promoted(b, p, h).invitations[q] <==> p in b.invitations[q]
  {
    assert h !in b.leaders;
    forall q | q in b.invitations ensures h in Promoted(b, p, h).invitations[q] <==> p in b.invitations[q] {
      assert b.invitations[q] <= b.leaders;
    }
  }

  /**
   * The same when a leader goes offline, unless his party vanishes with him: its single member is then
   * left without a party, because dropping the invitation that the leader held into his own party settles it.
   */
  lemma LowestMemberSucceedsOffline(b: Book, p: PlayerId)
    requires Inv(b) && p in b.leaders && Members(b, p) != {}
    ensures Outcome(b, Remove(p)).Ok?
    ensures (exists h :: Succeeds(b, After(b, Remove(p)), p, h)) <==> !Vanishing(b, p)
    ensures Vanishing(b, p) ==> forall m | m in Members(b, p) :: PartyOf(After(b, Remove(p)), m) == None
  {
    var gone := b.(online := b.online - {p}, activity := b.activity - {p});
    assert Members(gone, p) == Members(b, p);
    var h := Heir(gone, p);
    HeirIsLowest(gone, p);
    PromotedSucceeds(gone, p, h);
    var out := Promoted(gone, p, h);
    DroppedSuccession(gone, p, h);
    var after := After(b, Remove(p));
    assert after == InvitationsDropped(out, p);
    if !Vanishing(b, p) {
      assert !Vanishing(gone, p) && Succeeds(gone, after, p, h);
      SameSuccession(b, gone, after, p, h);
      assert Succeeds(b, after, p, h);
    } else {
      assert Vanishing(gone, p);
    }
    if Vanishing(b, p) {
      forall x ensures !Succeeds(b, after, p, x) {
        if x in Members(b, p) {
          OnlyOne(Members(b, p), x, h);
        }
      }
      forall m | m in Members(b, p) ensures m == h {
        OnlyOne(Members(b, p), m, h);
      }
    }
  }

  lemma SameSuccession(b: Book, gone: Book, after: Book, p: PlayerId, h: PlayerId)
    requires gone == b.(online := gone.online, activity := gone.activity) && Succeeds(gone, after, p, h)
    ensures Succeeds(b, after, p, h)
  {
    assert Members(gone, p) == Members(b, p);
    forall x ensures PartyOf(gone, x) == PartyOf(b, x) {}
  }

  lemma OnlyOne(s: set<PlayerId>, x: PlayerId, y: PlayerId)
    requires |s| == 1 && x in s && y in s
    ensures x == y
  {
    assert |s - {x}| == 0;
  }

  /** Dropping the invitations of the one who has gone dissolves the new party exactly if it vanishes. */
  lemma DroppedSuccession(b: Book, p: PlayerId, h: PlayerId)
    requires Consistent(b) && p in b.leaders && h in Members(b, p) && forall m | m in Members(b, p) :: h <= m
    ensures var after := InvitationsDropped(Promoted(b, p, h), p);
      && (!Vanishing(b, p) ==> Succeeds(b, after, p, h))
      && (Vanishing(b, p) ==> PartyOf(after, h) == None)
  {
    var out := Promoted(b, p, h);
    PromotedSucceeds(b, p, h);
    PromotionIsConsistent(b, p, h);
    if p in b.invitations {
      var rest := out.(invitations := out.invitations - {p});
      var holders := Ascending(out.invitations[p]);
      SettlingIsSimultaneous(rest, holders);
      HollowHeir(b, p, h);
      var dropped := HollowAmong(rest, holders);
      forall m | m in rest.memberships ensures rest.memberships[m] !in dropped {
        assert m in Members(rest, rest.memberships[m]);
      }
    }
  }

  /** The heir's party is empty and waits for nobody exactly if the old one had one member and invited nobody else. */
  lemma HollowHeir(b: Book, p: PlayerId, h: PlayerId)
    requires Consistent(b) && p in b.leaders && h in Members(b, p) && p in b.invitations
    ensures var out := Promoted(b, p, h);
      var rest := out.(invitations := out.invitations - {p});
      h in out.invitations[p] && Hollow(rest, h) <==> Vanishing(b, p)
  {
    var out := Promoted(b, p, h);
    var rest := out.(invitations := out.invitations - {p});
    assert h !in b.leaders;
    assert Members(rest, h) == Members(b, p) - {h};
    assert |Members(b, p)| == |Members(b, p) - {h}| + 1;
    forall q | q in b.invitations ensures h in out.invitations[q] <==> p in b.invitations[q] {
      assert b.invitations[q] <= b.leaders;
    }
    if !Invites(rest, h) {
      forall q | q in b.invitations && q != p ensures p !in b.invitations[q] {
        assert q in rest.invitations;
      }
    }
  }

  const THREE := Book({1, 2, 3}, {}, map[], map[], {}, map[])
  const BOTH_ASKED := Book({1, 2, 3}, {1}, map[2 := 1], map[2 := {1}, 3 := {1}], {}, map[])
  const BOTH_IN := Book({1, 2, 3}, {1}, map[2 := 1, 3 := 1], map[2 := {1}], {}, map[])
  const VANISHING := Book({1, 2, 3}, {2}, map[3 := 2], map[2 := {2}], {}, map[])

  lemma BothAreAsked()
    ensures After(After(After(THREE, Invite(1, 2)), AddExisting(1, 2)), Invite(1, 3)) == BOTH_ASKED
  {
    var none: set<PlayerId> := {};
    assert none + {1} == {1};
    var asked := THREE.(leaders := {1}, invitations := map[2 := {1}]);
    assert After(THREE, Invite(1, 2)) == asked;
    assert After(asked, AddExisting(1, 2)) == asked.(memberships := map[2 := 1]);
  }

  lemma BothAreIn()
    ensures After(BOTH_ASKED, Accept(3, 1)) == BOTH_IN
  {
    var joined := BOTH_ASKED.(memberships := map[2 := 1, 3 := 1]);
    var rest := joined.(invitations := joined.invitations - {3});
    SameList(Ascending({1}), [1]);
    assert rest == BOTH_IN && 2 in Members(rest, 1);
    assert SettledEach(rest, [1]) == SettledEach(rest, []);
  }

  lemma SecondLeads()
    ensures After(BOTH_IN, Leave(1)) == VANISHING
  {
    assert Members(BOTH_IN, 1) == {2, 3};
    SameList(Ascending({2, 3}), [2, 3]);
    SecondTakesOver(BOTH_IN);
  }

  lemma SecondTakesOver(b: Book)
    requires b == BOTH_IN
    ensures Promoted(b, 1, 2) == VANISHING
  {
    var after := Promoted(b, 1, 2);
    assert after.leaders == {2};
    assert after.memberships == map[3 := 2];
    assert b.invitations[2] - {1} + {2} == {2};
    assert after.invitations == map[2 := {2}];
    assert after.activity == map[];
    assert after.requested == {};
  }

  lemma VanishingIsSo(b: Book)
    requires b == VANISHING
    ensures Inv(b) && Vanishing(b, 2) && PartyOf(b, 3) == Some(2)
  {
    assert Members(b, 2) == {3};
    assert Holds(b, 2, 2);
  }

  /**
   * A run that ends so: 1 invites 2 and adds him, invites 3, who accepts, and leaves. Now 2 is invited by
   * himself, and when he goes offline, 3 has no party.
   */
  lemma OnlyMemberIsLeftWithoutParty()
    ensures var asked := After(After(After(THREE, Invite(1, 2)), AddExisting(1, 2)), Invite(1, 3));
      var b := After(After(asked, Accept(3, 1)), Leave(1));
      PartyOf(b, 3) == Some(2) && PartyOf(After(b, Remove(2)), 3) == None
  {
    BothAreAsked();
    BothAreIn();
    SecondLeads();
    VanishingIsSo(VANISHING);
    NobodyIsLeft(VANISHING);
  }

  lemma NobodyIsLeft(b: Book)
    requires Inv(b) && Vanishing(b, 2) && PartyOf(b, 3) == Some(2)
    ensures PartyOf(After(b, Remove(2)), 3) == None
  {
    LowestMemberSucceedsOffline(b, 2);
  }

  // ----- the other commands, player by player -----

  /** `p` holds an invitation from the leader `l`. */
  predicate Holds(b: Book, p: PlayerId, l: PlayerId) {
    p in b.invitations && l in b.invitations[p]
  }

  predicate Alone(b: Book, p: PlayerId) {
    PartyOf(b, p) == None
  }

  predicate Leads(b: Book, p: PlayerId) {
    PartyOf(b, p) == Some(p)
  }

  /** Nobody but `p` himself is in his party, and nobody but perhaps `x` is invited into it. */
  predicate LeadsOnly(b: Book, p: PlayerId, x: PlayerId) {
    Leads(b, p) && (forall q | q != p :: PartyOf(b, q) != Some(p)) && forall q | q != x :: !Holds(b, q, p)
  }

  /** An invitation is given by a leader, or by somebody without a party, who then leads one; it changes nothing else. */
  lemma InviteMeans(b: Book, leader: PlayerId, p: PlayerId)
    requires Inv(b)
    ensures Invited(b, leader, p).Ok? <==>
      && leader in b.online && p in b.online && leader != p && !Holds(b, p, leader)
      && (Leads(b, leader) || Alone(b, leader)) && Alone(b, p)
    ensures Invited(b, leader, p).Ok? ==>
      var after := Invited(b, leader, p).value;
      && (forall x :: PartyOf(after, x) == if x == leader then Some(leader) else PartyOf(b, x))
      && (forall x, l :: Holds(after, x, l) <==> Holds(b, x, l) || (x == p && l == leader))
      && after.requested == b.requested && after.activity == b.activity && after.online == b.online
  {
    assert leader in b.memberships ==> b.memberships[leader] in b.leaders && leader !in b.leaders;
  }

  /** An accepted invitation moves the player into that party, and ends parties that waited for nobody else. */
  lemma AcceptMeans(b: Book, p: PlayerId, leader: PlayerId)
    requires Inv(b)
    ensures Accepted(b, p, leader).Ok? <==> p in b.online && Holds(b, p, leader) && Alone(b, p)
    ensures Accepted(b, p, leader).Ok? ==>
      var after := Accepted(b, p, leader).value;
      && PartyOf(after, p) == Some(leader)
      && (forall x | x != p :: PartyOf(after, x) == if x != leader && Holds(b, p, x) && LeadsOnly(b, x, p) then None else PartyOf(b, x))
      && (forall x, l :: Holds(after, x, l) <==> x != p && Holds(b, x, l))
  {
    if p in b.invitations && leader in b.invitations[p] {
      assert b.invitations[p] <= b.leaders && leader in Named(b);
    }
    if Accepted(b, p, leader).Ok? {
      var joined := b.(memberships := b.memberships[p := leader], invitations := b.invitations - {p});
      var holders := Ascending(b.invitations[p]);
      var gone := HollowAmong(joined, holders);
      SettlingIsSimultaneous(joined, holders);
      assert Accepted(b, p, leader).value == Without(joined, gone);
      forall x | x in b.leaders && x in b.invitations[p]
        ensures x in gone <==> x != leader && LeadsOnly(b, x, p)
      {
        HollowAfterJoining(b, p, leader, x);
      }
      forall x | x in b.memberships ensures b.memberships[x] !in gone {
        assert x in Members(joined, b.memberships[x]);
      }
      assert p in Members(joined, leader);
    }
  }

  lemma HollowAfterJoining(b: Book, p: PlayerId, leader: PlayerId, x: PlayerId)
    requires Inv(b) && Alone(b, p) && leader in b.leaders && x in b.leaders
    ensures Hollow(b.(memberships := b.memberships[p := leader], invitations := b.invitations - {p}), x)
      <==> x != leader && LeadsOnly(b, x, p)
  {
    var joined := b.(memberships := b.memberships[p := leader], invitations := b.invitations - {p});
    if x == leader {
      assert p in Members(joined, leader);
    } else if Hollow(joined, x) {
      forall q | q != x ensures PartyOf(b, q) != Some(x) {
        assert q in b.memberships && b.memberships[q] == x ==> q in Members(joined, x);
      }
      forall q | q != p ensures !Holds(b, q, x) {
        assert Holds(b, q, x) ==> q in joined.invitations;
      }
    } else if LeadsOnly(b, x, p) {
      forall q | q in joined.memberships ensures joined.memberships[q] != x {
        assert q != p ==> PartyOf(b, q) == Some(b.memberships[q]);
      }
      forall q | q in joined.invitations ensures x !in joined.invitations[q] {
        assert !Holds(b, q, x);
      }
    }
  }

  /** A withdrawn invitation is gone, and so is the party if nothing else held it together. */
  lemma RevokeMeans(b: Book, leader: PlayerId, p: PlayerId)
    requires Inv(b)
    ensures Revoked(b, leader, p).Ok? <==> leader in b.online && p in b.online && Holds(b, p, leader)
    ensures Revoked(b, leader, p).Ok? ==>
      var after := Revoked(b, leader, p).value;
      && (forall x, l :: Holds(after, x, l) <==> Holds(b, x, l) && !(x == p && l == leader))
      && (forall x :: PartyOf(after, x) == if x == leader && LeadsOnly(b, leader, p) then None else PartyOf(b, x))
  {
    if Revoked(b, leader, p).Ok? {
      var left := b.invitations[p] - {leader};
      var rest := b.(invitations := if left == {} then b.invitations - {p} else b.invitations[p := left]);
      forall x, l ensures Holds(rest, x, l) <==> Holds(b, x, l) && !(x == p && l == leader) {
        assert x == p && Holds(b, x, l) && l != leader ==> l in left;
      }
      HollowMeans(rest, leader);
      forall x ensures PartyOf(rest, x) == PartyOf(b, x) {}
      if Hollow(rest, leader) {
        HollowPartyVanishes(rest, leader);
      }
    }
  }

  lemma HollowMeans(b: Book, x: PlayerId)
    requires Consistent(b)
    ensures Hollow(b, x) <==> Leads(b, x) && (forall q | q != x :: PartyOf(b, q) != Some(x)) && forall q :: !Holds(b, q, x)
  {
    if Hollow(b, x) {
      forall q | q != x ensures PartyOf(b, q) != Some(x) {
        assert q in b.memberships && b.memberships[q] == x ==> q in Members(b, x);
      }
    } else if x in b.leaders {
      if Members(b, x) != {} {
        var q :| q in Members(b, x);
        assert PartyOf(b, q) == Some(x);
      } else {
        var q :| q in b.invitations && x in b.invitations[q];
        assert Holds(b, q, x);
      }
    }
  }

  /** A plain member's leave takes himself out, and ends the party if nothing else held it together. */
  lemma MemberLeaveMeans(b: Book, p: PlayerId)
    requires Inv(b) && p in b.memberships
    ensures var after, leader := After(b, Leave(p)), b.memberships[p];
      var rest := b.(memberships := b.memberships - {p});
      && (forall x :: PartyOf(after, x) ==
            if x == p || (x == leader && (forall q | q != leader && q != p :: PartyOf(b, q) != Some(leader))
                          && forall q :: !Holds(b, q, leader)) then None else PartyOf(b, x))
      && (forall x, l :: Holds(after, x, l) <==> Holds(b, x, l))
  {
    var rest, leader := b.(memberships := b.memberships - {p}), b.memberships[p];
    forall x ensures PartyOf(rest, x) == if x == p then None else PartyOf(b, x) {}
    HollowMeans(rest, leader);
    if Hollow(rest, leader) {
      HollowPartyVanishes(rest, leader);
    }
    forall x, l ensures Holds(rest, x, l) <==> Holds(b, x, l) {}
  }

  /** A transfer makes a member the leader of everybody in the party, the old leader included. */
  lemma TransferMeans(b: Book, leader: PlayerId, heir: PlayerId)
    requires Inv(b)
    ensures Transferred(b, leader, heir).Ok? <==>
      leader in b.online && heir in b.online && leader != heir && Leads(b, leader) && PartyOf(b, heir) == Some(leader)
    ensures Transferred(b, leader, heir).Ok? ==>
      var after := Transferred(b, leader, heir).value;
      && (forall x :: PartyOf(after, x) == if PartyOf(b, x) == Some(leader) then Some(heir) else PartyOf(b, x))
      && (forall x, l :: Holds(after, x, l) <==> Holds(b, x, if l == heir then leader else l) && l != leader)
      && (heir in after.requested <==> leader in b.requested)
  {
    if Transferred(b, leader, heir).Ok? {
      forall x, l ensures Holds(b, x, l) ==> l in b.leaders {
        assert x in b.invitations ==> b.invitations[x] <= b.leaders;
      }
    }
  }

  /** A restored party has its leader and exactly the listed members; an added member joins an existing one. */
  lemma RestoreMeans(b: Book, leader: PlayerId, members: seq<PlayerId>)
    requires Inv(b)
    ensures Restored(b, leader, members).Ok? <==>
      && NoDuplicates([leader] + members) && forall x | x in [leader] + members :: x in b.online && Alone(b, x)
    ensures Restored(b, leader, members).Ok? ==> forall x ::
      PartyOf(Restored(b, leader, members).value, x) == if x in [leader] + members then Some(leader) else PartyOf(b, x)
  {
    var all := [leader] + members;
    assert forall i | 0 <= i < |members| :: all[i + 1] == members[i];
    if NoDuplicates(all) {
      forall i | 0 <= i < |members| ensures members[i] != leader {
        assert all[0] != all[i + 1];
      }
      forall i, j | 0 <= i < j < |members| ensures members[i] != members[j] {
        assert all[i + 1] != all[j + 1];
      }
    }
  }

  lemma AddMeans(b: Book, leader: PlayerId, p: PlayerId)
    requires Inv(b)
    ensures Added(b, leader, p).Ok? <==> p != leader && leader in b.online && p in b.online && Leads(b, leader) && Alone(b, p)
    ensures Added(b, leader, p).Ok? ==> forall x ::
      PartyOf(Added(b, leader, p).value, x) == if x == p then Some(leader) else PartyOf(b, x)
  {
  }

  /** Only a leader asks for shared experience, and only for his own party; only players in a party are marked active. */
  lemma AskAndMarkMean(b: Book, p: PlayerId, wanted: bool, tick: u64)
    requires Inv(b)
    ensures Asked(b, p, wanted).Ok? <==> p in b.online && Leads(b, p)
    ensures Asked(b, p, wanted).Ok? ==>
      var after := Asked(b, p, wanted).value;
      after == b.(requested := after.requested)
      && forall x :: x in after.requested <==> if x == p then wanted else x in b.requested
    ensures Marked(b, p, tick).Ok? <==> p in b.online && !Alone(b, p)
    ensures Marked(b, p, tick).Ok? ==>
      var after := Marked(b, p, tick).value;
      after == b.(activity := after.activity) && after.activity.Keys == b.activity.Keys + {p}
      && forall x | x in after.activity :: after.activity[x] == if x == p then tick else b.activity[x]
  {
  }
}
