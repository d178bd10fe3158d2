/**
 * The party collections as the world holds them, changed in place by the commands. Each method ends in
 * the book that the outcome of its command describes.
 */
module PartyBooks {
  import opened Prelude
  import opened Parties

  class PartyBook {
    var online: set<PlayerId>
    var leaders: set<PlayerId>
    var memberships: map<PlayerId, PlayerId>
    var invitations: map<PlayerId, set<PlayerId>>
    var requested: set<PlayerId>
    var activity: map<PlayerId, u64>

    ghost function Now(): Book
      reads this
    {
      Book(online, leaders, memberships, invitations, requested, activity)
    }

    constructor ()
      ensures Now() == EMPTY && Inv(Now())
    {
      online, leaders, memberships, invitations, requested, activity := {}, {}, map[], map[], {}, map[];
    }

    // ----- shared steps -----

    method MemberIds(leader: PlayerId) returns (ids: seq<PlayerId>)
      ensures ids == Ascending(Members(Now(), leader))
    {
      var members := set m | m in memberships && memberships[m] == leader;
      assert members == Members(Now(), leader);
      ids := VisitOrder(members);
    }

    method Disband(leader: PlayerId)
      modifies this
      ensures Now() == Disbanded(old(Now()), leader)
    {
      var members := set m | m in memberships && memberships[m] == leader;
      leaders := leaders - {leader};
      requested := requested - {leader};
      activity := activity - ({leader} + members);
      memberships := memberships - members;
      invitations := Uninvited(invitations, leader);
    }

    method DisbandIfEmpty(leader: PlayerId)
      modifies this
      ensures Now() == Settled(old(Now()), leader)
    {
      if leader in leaders && (forall m | m in memberships :: memberships[m] != leader)
         && (forall p | p in invitations :: leader !in invitations[p]) {
        assert Members(Now(), leader) == {};
        Disband(leader);
      } else {
        assert leader in leaders ==> !(Members(Now(), leader) == {} && !Invites(Now(), leader)) by {
          if m :| m in memberships && memberships[m] == leader {
            assert m in Members(Now(), leader);
          }
        }
      }
    }

    /** Settles, in ascending order, every leader on a list except one that is known to have a member. */
    method DisbandEach(ids: seq<PlayerId>, keep: Option<PlayerId>)
      requires keep.Some? ==> Members(Now(), keep.value) != {}
      requires NoEmptySets(Now())
      modifies this
      ensures Now() == SettledEach(old(Now()), ids)
    {
      ghost var goal := SettledEach(Now(), ids);
      assert ids[0..] == ids;
      for i := 0 to |ids|
        invariant NoEmptySets(Now())
        invariant keep.Some? ==> Members(Now(), keep.value) != {}
        invariant SettledEach(Now(), ids[i..]) == goal
      {
        assert ids[i..][0] == ids[i] && ids[i..][1..] == ids[i + 1..];
        if Hollow(Now(), ids[i]) {
          HollowPartyVanishes(Now(), ids[i]);
        }
        if keep != Some(ids[i]) {
          DisbandIfEmpty(ids[i]);
        }
      }
      assert ids[|ids|..] == [];
    }

    /** A leader leaves: the lowest member takes over, or the party is disbanded. */
    method RemoveLeader(leader: PlayerId)
      requires leader in leaders && leader !in memberships
      modifies this
      ensures Now() == LeaderGone(old(Now()), leader)
    {
      var ids := MemberIds(leader);
      if ids == [] {
        assert Members(Now(), leader) == {};
        Disband(leader);
        return;
      }
      var heir := ids[0];
      assert heir in Members(Now(), leader);
      assert heir == Heir(Now(), leader);
      leaders := leaders - {leader} + {heir};
      if leader in requested {
        requested := requested - {leader} + {heir};
      }
      memberships := memberships - {heir};
      Repoint(ids, heir);
      assert memberships == Promoted(old(Now()), leader, heir).memberships;
      invitations := map p | p in invitations :: RenamedIn(invitations[p], leader, heir);
    }

    /** Points the listed members, other than the new leader himself, to the new leader. */
    method Repoint(ids: seq<PlayerId>, heir: PlayerId)
      modifies this`memberships
      ensures forall m :: m in memberships <==> m in old(memberships) || (m in ids && m != heir)
      ensures forall m | m in memberships ::
                memberships[m] == if m in ids && m != heir then heir else old(memberships)[m]
    {
      for i := 0 to |ids|
        invariant forall m :: m in memberships <==> m in old(memberships) || (m in ids[..i] && m != heir)
        invariant forall m | m in memberships ::
                    memberships[m] == if m in ids[..i] && m != heir then heir else old(memberships)[m]
      {
        if ids[i] != heir {
          memberships := memberships[ids[i] := heir];
        }
        assert ids[..i + 1] == ids[..i] + [ids[i]];
      }
      assert ids[..|ids|] == ids;
    }

    // ----- the commands -----

    method Invite(leader: PlayerId, p: PlayerId) returns (r: Result<()>)
      requires Inv(Now())
      modifies this
      ensures Inv(Now()) && Now() == After(old(Now()), Command.Invite(leader, p))
      ensures r.Ok? <==> Outcome(old(Now()), Command.Invite(leader, p)).Ok?
    {
      CommandKeepsInv(Now(), Command.Invite(leader, p));
      if leader !in online || p !in online || leader == p || leader in memberships || p in leaders || p in memberships {
        return Err;
      }
      var holding := if p in invitations then invitations[p] else {};
      if leader in holding {
        return Err;
      }
      invitations := invitations[p := holding + {leader}];
      leaders := leaders + {leader};
      return Ok(());
    }

    method Accept(p: PlayerId, leader: PlayerId) returns (r: Result<()>)
      requires Inv(Now())
      modifies this
      ensures Inv(Now()) && Now() == After(old(Now()), Command.Accept(p, leader))
      ensures r.Ok? <==> Outcome(old(Now()), Command.Accept(p, leader)).Ok?
    {
      CommandKeepsInv(Now(), Command.Accept(p, leader));
      if p !in online || leader !in online || p !in invitations || leader !in invitations[p]
         || p in leaders || p in memberships || leader !in leaders {
        return Err;
      }
      var inviting: seq<PlayerId> := VisitOrder(invitations[p]);
      invitations := invitations - {p};
      memberships := memberships[p := leader];
      assert p in Members(Now(), leader);
      DisbandEach(inviting, Some(leader));
      return Ok(());
    }

    method Leave(p: PlayerId) returns (r: Result<()>)
      requires Inv(Now())
      modifies this
      ensures Inv(Now()) && Now() == After(old(Now()), Command.Leave(p))
      ensures r.Ok? <==> Outcome(old(Now()), Command.Leave(p)).Ok?
    {
      CommandKeepsInv(Now(), Command.Leave(p));
      if p !in online || (p !in leaders && p !in memberships) {
        return Err;
      }
      LeaveParty(p);
      return Ok(());
    }

    method LeaveParty(p: PlayerId)
      requires p in leaders ==> p !in memberships
      modifies this
      ensures Now() == OutOfParty(old(Now()), p)
    {
      if p in leaders {
        RemoveLeader(p);
      } else if p in memberships {
        var leader := memberships[p];
        memberships := memberships - {p};
        DisbandIfEmpty(leader);
      }
    }

    method Transfer(leader: PlayerId, heir: PlayerId) returns (r: Result<()>)
      requires Inv(Now())
      modifies this
      ensures Inv(Now()) && Now() == After(old(Now()), Command.Transfer(leader, heir))
      ensures r.Ok? <==> Outcome(old(Now()), Command.Transfer(leader, heir)).Ok?
    {
      CommandKeepsInv(Now(), Command.Transfer(leader, heir));
      if leader !in online || heir !in online || leader == heir || leader !in leaders
         || heir !in memberships || memberships[heir] != leader {
        return Err;
      }
      Rename(leader, heir);
      return Ok(());
    }

    method Rename(leader: PlayerId, heir: PlayerId)
      requires Transferred(Now(), leader, heir).Ok?
      modifies this
      ensures Now() == Transferred(old(Now()), leader, heir).value
    {
      leaders := leaders - {leader} + {heir};
      if leader in requested {
        requested := requested - {leader} + {heir};
      }
      memberships := memberships - {heir};
      memberships := map m | m in memberships :: if memberships[m] == leader then heir else memberships[m];
      assert memberships == Promoted(old(Now()), leader, heir).memberships;
      memberships := memberships[leader := heir];
      invitations := map p | p in invitations :: RenamedIn(invitations[p], leader, heir);
    }

    method Revoke(leader: PlayerId, p: PlayerId) returns (r: Result<()>)
      requires Inv(Now())
      modifies this
      ensures Inv(Now()) && Now() == After(old(Now()), Command.Revoke(leader, p))
      ensures r.Ok? <==> Outcome(old(Now()), Command.Revoke(leader, p)).Ok?
    {
      CommandKeepsInv(Now(), Command.Revoke(leader, p));
      if leader !in online || p !in online || leader !in leaders || p !in invitations || leader !in invitations[p] {
        return Err;
      }
      var left := invitations[p] - {leader};
      invitations := if left == {} then invitations - {p} else invitations[p := left];
      DisbandIfEmpty(leader);
      return Ok(());
    }

    /** Restores a persisted party, or changes nothing. */
    method Restore(leader: PlayerId, members: seq<PlayerId>) returns (r: Result<()>)
      requires Inv(Now())
      modifies this
      ensures Inv(Now()) && Now() == After(old(Now()), Command.Restore(leader, members))
      ensures r.Ok? <==> Outcome(old(Now()), Command.Restore(leader, members)).Ok?
    {
      CommandKeepsInv(Now(), Command.Restore(leader, members));
      if !NoDuplicates(members) || leader in members || leader !in online || leader in leaders || leader in memberships {
        return Err;
      }
      for i := 0 to |members|
        invariant forall j | 0 <= j < i :: members[j] in online && !Affiliated(Now(), members[j])
      {
        if members[i] !in online || members[i] in leaders || members[i] in memberships {
          assert members[i] in members;
          return Err;
        }
      }
      Enrol(leader, members);
      leaders := leaders + {leader};
      return Ok(());
    }

    method Enrol(leader: PlayerId, members: seq<PlayerId>)
      modifies this`memberships
      ensures memberships == old(memberships) + map m | m in members :: leader
    {
      for i := 0 to |members|
        invariant memberships == old(memberships) + map m | m in members[..i] :: leader
      {
        assert members[..i + 1] == members[..i] + [members[i]];
        memberships := memberships[members[i] := leader];
      }
      assert members[..|members|] == members;
    }

    method AddExisting(leader: PlayerId, p: PlayerId) returns (r: Result<()>)
      requires Inv(Now())
      modifies this
      ensures Inv(Now()) && Now() == After(old(Now()), Command.AddExisting(leader, p))
      ensures r.Ok? <==> Outcome(old(Now()), Command.AddExisting(leader, p)).Ok?
    {
      CommandKeepsInv(Now(), Command.AddExisting(leader, p));
      if p == leader || leader !in online || p !in online || leader !in leaders || p in leaders || p in memberships {
        return Err;
      }
      memberships := memberships[p := leader];
      return Ok(());
    }

    method Request(leader: PlayerId, wanted: bool) returns (r: Result<()>)
      requires Inv(Now())
      modifies this
      ensures Inv(Now()) && Now() == After(old(Now()), Command.Request(leader, wanted))
      ensures r.Ok? <==> Outcome(old(Now()), Command.Request(leader, wanted)).Ok?
    {
      CommandKeepsInv(Now(), Command.Request(leader, wanted));
      if leader !in online || leader !in leaders {
        return Err;
      }
      requested := if wanted then requested + {leader} else requested - {leader};
      return Ok(());
    }

    method Mark(p: PlayerId, tick: u64) returns (r: Result<()>)
      requires Inv(Now())
      modifies this
      ensures Inv(Now()) && Now() == After(old(Now()), Command.Mark(p, tick))
      ensures r.Ok? <==> Outcome(old(Now()), Command.Mark(p, tick)).Ok?
    {
      CommandKeepsInv(Now(), Command.Mark(p, tick));
      if p !in online || (p !in leaders && p !in memberships) {
        return Err;
      }
      activity := activity[p := tick];
      return Ok(());
    }

    method Join(p: PlayerId) returns (r: Result<()>)
      requires Inv(Now())
      modifies this
      ensures Inv(Now()) && Now() == After(old(Now()), Command.Join(p))
      ensures r.Ok? <==> Outcome(old(Now()), Command.Join(p)).Ok?
    {
      CommandKeepsInv(Now(), Command.Join(p));
      if p in online {
        return Err;
      }
      online := online + {p};
      return Ok(());
    }

    /** A player goes offline: out of his party, and out of everybody's invitations. */
    method Remove(p: PlayerId) returns (r: Result<()>)
      requires Inv(Now())
      modifies this
      ensures Inv(Now()) && Now() == After(old(Now()), Command.Remove(p))
      ensures r.Ok? <==> Outcome(old(Now()), Command.Remove(p)).Ok?
    {
      CommandKeepsInv(Now(), Command.Remove(p));
      if p !in online {
        return Err;
      }
      online := online - {p};
      activity := activity - {p};
      OutOfPartyIsSound(Now(), p);
      LeaveParty(p);
      if p in invitations {
        var inviting: seq<PlayerId> := VisitOrder(invitations[p]);
        invitations := invitations - {p};
        DisbandEach(inviting, None);
      }
      return Ok(());
    }
  }
}
