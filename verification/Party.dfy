/** Parties: leaders, memberships, invitations and sharing, under session commands and player removal. */
module Parties {
  import opened Prelude

  datatype Book = Book(
    online: set<PlayerId>,
    leaders: set<PlayerId>,
    memberships: map<PlayerId, PlayerId>,
    invitations: map<PlayerId, set<PlayerId>>,
    requested: set<PlayerId>,
    activity: map<PlayerId, u64>)

  function Members(b: Book, leader: PlayerId): set<PlayerId> {
    set m | m in b.memberships && b.memberships[m] == leader
  }

  predicate Invites(b: Book, leader: PlayerId) {
    exists p :: p in b.invitations && leader in b.invitations[p]
  }

  predicate Affiliated(b: Book, p: PlayerId) {
    p in b.leaders || p in b.memberships
  }

  /** A leader of nobody, waiting for nobody. */
  predicate Hollow(b: Book, leader: PlayerId) {
    leader in b.leaders && Members(b, leader) == {} && !Invites(b, leader)
  }

  // ----- building blocks -----

  function Uninvited(invitations: map<PlayerId, set<PlayerId>>, leader: PlayerId): map<PlayerId, set<PlayerId>> {
    map p | p in invitations && invitations[p] - {leader} != {} :: invitations[p] - {leader}
  }

  function Disbanded(b: Book, leader: PlayerId): Book {
    b.(leaders := b.leaders - {leader},
       requested := b.requested - {leader},
       activity := b.activity - ({leader} + Members(b, leader)),
       memberships := b.memberships - Members(b, leader),
       invitations := Uninvited(b.invitations, leader))
  }

  function Settled(b: Book, leader: PlayerId): Book {
    if Hollow(b, leader) then Disbanded(b, leader) else b
  }

  function SettledEach(b: Book, leaders: seq<PlayerId>): Book
    decreases |leaders|
  {
    if leaders == [] then b else SettledEach(Settled(b, leaders[0]), leaders[1..])
  }

  function RenamedIn(s: set<PlayerId>, from: PlayerId, to: PlayerId): set<PlayerId> {
    if from in s then s - {from} + {to} else s
  }

  /** `heir`, until now a member, takes the place of `leader`, who is out. */
  function Promoted(b: Book, leader: PlayerId, heir: PlayerId): Book {
    b.(leaders := b.leaders - {leader} + {heir},
       requested := RenamedIn(b.requested, leader, heir),
       memberships := map m | m in b.memberships && m != heir ::
                        if b.memberships[m] == leader then heir else b.memberships[m],
       invitations := map p | p in b.invitations :: RenamedIn(b.invitations[p], leader, heir))
  }

  /** The lowest member, who succeeds a leader that leaves. */
  ghost function Heir(b: Book, leader: PlayerId): PlayerId
    requires Members(b, leader) != {}
  {
    assert exists m :: m in Members(b, leader);
    Ascending(Members(b, leader))[0]
  }

  ghost function LeaderGone(b: Book, leader: PlayerId): Book {
    if Members(b, leader) == {} then Disbanded(b, leader) else Promoted(b, leader, Heir(b, leader))
  }

  /** Leaving the party one is in, as leader or as member. */
  ghost function OutOfParty(b: Book, p: PlayerId): Book {
    if p in b.leaders then LeaderGone(b, p)
    else if p in b.memberships then Settled(b.(memberships := b.memberships - {p}), b.memberships[p])
    else b
  }

  /** Forgetting the invitations one holds, and every party that was waiting for nobody else. */
  ghost function InvitationsDropped(b: Book, p: PlayerId): Book {
    if p in b.invitations then SettledEach(b.(invitations := b.invitations - {p}), Ascending(b.invitations[p])) else b
  }

  // ----- the commands -----

  function Invited(b: Book, leader: PlayerId, p: PlayerId): Result<Book> {
    var holding := if p in b.invitations then b.invitations[p] else {};
    if leader !in b.online || p !in b.online || leader == p || leader in b.memberships || Affiliated(b, p)
       || leader in holding then Err
    else Ok(b.(invitations := b.invitations[p := holding + {leader}], leaders := b.leaders + {leader}))
  }

  ghost function Accepted(b: Book, p: PlayerId, leader: PlayerId): Result<Book> {
    if p !in b.online || leader !in b.online || p !in b.invitations || leader !in b.invitations[p]
       || Affiliated(b, p) || leader !in b.leaders then Err
    else Ok(InvitationsDropped(b.(memberships := b.memberships[p := leader]), p))
  }

  ghost function Left(b: Book, p: PlayerId): Result<Book> {
    if p !in b.online || !Affiliated(b, p) then Err else Ok(OutOfParty(b, p))
  }

  function Transferred(b: Book, leader: PlayerId, heir: PlayerId): Result<Book> {
    if leader !in b.online || heir !in b.online || leader == heir || leader !in b.leaders || heir !in Members(b, leader) then Err
    else
      var next := Promoted(b, leader, heir);
      Ok(next.(memberships := next.memberships[leader := heir]))
  }

  function Revoked(b: Book, leader: PlayerId, p: PlayerId): Result<Book> {
    if leader !in b.online || p !in b.online || leader !in b.leaders
       || p !in b.invitations || leader !in b.invitations[p] then Err
    else
      var left := b.invitations[p] - {leader};
      Ok(Settled(b.(invitations := if left == {} then b.invitations - {p} else b.invitations[p := left]), leader))
  }

  predicate NoDuplicates(members: seq<PlayerId>) {
    forall i, j | 0 <= i < j < |members| :: members[i] != members[j]
  }

  /** A persisted party comes back: its members are listed without the leader. */
  function Restored(b: Book, leader: PlayerId, members: seq<PlayerId>): Result<Book> {
    if !NoDuplicates(members) || leader in members || leader !in b.online || Affiliated(b, leader)
       || exists m | m in members :: m !in b.online || Affiliated(b, m) then Err
    else Ok(b.(memberships := b.memberships + (map m | m in members :: leader), leaders := b.leaders + {leader}))
  }

  function Added(b: Book, leader: PlayerId, p: PlayerId): Result<Book> {
    if p == leader || leader !in b.online || p !in b.online || leader !in b.leaders || Affiliated(b, p) then Err
    else Ok(b.(memberships := b.memberships[p := leader]))
  }

  function Asked(b: Book, leader: PlayerId, wanted: bool): Result<Book> {
    if leader !in b.online || leader !in b.leaders then Err
    else Ok(b.(requested := if wanted then b.requested + {leader} else b.requested - {leader}))
  }

  function Marked(b: Book, p: PlayerId, tick: u64): Result<Book> {
    if p !in b.online || !Affiliated(b, p) then Err else Ok(b.(activity := b.activity[p := tick]))
  }

  ghost function Removed(b: Book, p: PlayerId): Result<Book> {
    if p !in b.online then Err
    else Ok(InvitationsDropped(OutOfParty(b.(online := b.online - {p}, activity := b.activity - {p}), p), p))
  }

  // ----- what every run keeps -----

  ghost predicate Inv(b: Book) {
    Consistent(b) && Named(b) <= b.online
  }

  /** The four collections agree with one another. */
  ghost predicate Consistent(b: Book) {
    && b.leaders !! b.memberships.Keys
    && (forall m | m in b.memberships :: b.memberships[m] in b.leaders)
    && NoEmptySets(b) && (forall p | p in b.invitations :: b.invitations[p] <= b.leaders)
    && b.requested <= b.leaders
  }

  function Named(b: Book): set<PlayerId> {
    b.leaders + b.memberships.Keys + b.invitations.Keys + b.activity.Keys
  }

  predicate NoEmptySets(b: Book) {
    forall p | p in b.invitations :: b.invitations[p] != {}
  }

  /** Nobody is invited by himself or by his own leader. */
  predicate NoSelfInvites(b: Book) {
    forall p | p in b.invitations ::
      p !in b.invitations[p] && (p in b.memberships ==> b.memberships[p] !in b.invitations[p])
  }

  /** Disbanding a hollow party touches nothing but its leader's own marks. */
  lemma HollowPartyVanishes(b: Book, leader: PlayerId)
    requires Hollow(b, leader) && NoEmptySets(b)
    ensures Disbanded(b, leader) == Without(b, {leader})
  {
    forall p | p in b.invitations ensures b.invitations[p] - {leader} == b.invitations[p] {}
    assert Uninvited(b.invitations, leader) == b.invitations;
    assert b.memberships - Members(b, leader) == b.memberships;
    assert {leader} + Members(b, leader) == {leader};
  }

  function Without(b: Book, gone: set<PlayerId>): Book {
    b.(leaders := b.leaders - gone, requested := b.requested - gone, activity := b.activity - gone)
  }

  function HollowAmong(b: Book, leaders: seq<PlayerId>): set<PlayerId> {
    set l | l in leaders && Hollow(b, l)
  }

  /** Settling leaders one after the other removes exactly those that are hollow to begin with. */
  lemma {:induction false} SettlingIsSimultaneous(b: Book, leaders: seq<PlayerId>)
    requires NoEmptySets(b)
    ensures SettledEach(b, leaders) == Without(b, HollowAmong(b, leaders))
    decreases |leaders|
  {
    if leaders == [] {
      assert Without(b, {}) == b;
    } else {
      var l, rest := leaders[0], leaders[1..];
      var next := Settled(b, l);
      if Hollow(b, l) {
        HollowPartyVanishes(b, l);
        forall x ensures Hollow(next, x) <==> Hollow(b, x) && x != l {
          assert Members(next, x) == Members(b, x);
        }
        assert HollowAmong(b, leaders) == {l} + HollowAmong(next, rest);
      } else {
        assert HollowAmong(b, leaders) == HollowAmong(b, rest);
      }
      SettlingIsSimultaneous(next, rest);
    }
  }

  datatype Command =
    | Invite(leader: PlayerId, invitee: PlayerId)
    | Accept(invitee: PlayerId, leader: PlayerId)
    | Leave(player: PlayerId)
    | Transfer(leader: PlayerId, heir: PlayerId)
    | Revoke(leader: PlayerId, invitee: PlayerId)
    | Restore(leader: PlayerId, members: seq<PlayerId>)
    | AddExisting(leader: PlayerId, player: PlayerId)
    | Request(leader: PlayerId, wanted: bool)
    | Mark(player: PlayerId, tick: u64)
    | Join(player: PlayerId)
    | Remove(player: PlayerId)

  ghost function Outcome(b: Book, c: Command): Result<Book> {
    match c
    case Invite(leader, p) => Invited(b, leader, p)
    case Accept(p, leader) => Accepted(b, p, leader)
    case Leave(p) => Left(b, p)
    case Transfer(leader, heir) => Transferred(b, leader, heir)
    case Revoke(leader, p) => Revoked(b, leader, p)
    case Restore(leader, members) => Restored(b, leader, members)
    case AddExisting(leader, p) => Added(b, leader, p)
    case Request(leader, wanted) => Asked(b, leader, wanted)
    case Mark(p, tick) => Marked(b, p, tick)
    case Join(p) => if p in b.online then Err else Ok(b.(online := b.online + {p}))
    case Remove(p) => Removed(b, p)
  }

  /** A refused command changes nothing. */
  ghost function After(b: Book, c: Command): Book {
    if Outcome(b, c).Ok? then Outcome(b, c).value else b
  }

  ghost function Run(b: Book, cs: seq<Command>): Book {
    if cs == [] then b else After(Run(b, cs[..|cs| - 1]), cs[|cs| - 1])
  }

  const EMPTY := Book({}, {}, map[], map[], {}, map[])

  // ----- the building blocks keep the invariant -----

  /** Still in order, naming nobody new, and inviting nobody to himself if nobody was. */
  ghost predicate Follows(b: Book, b': Book) {
    && Consistent(b') && Named(b') <= Named(b) && (NoSelfInvites(b) ==> NoSelfInvites(b'))
    && b'.online == b.online && b'.activity.Keys <= b.activity.Keys
  }

  lemma DisbandingIsSound(b: Book, leader: PlayerId)
    requires Consistent(b)
    ensures Follows(b, Disbanded(b, leader))
  {
  }

  lemma SettlingIsSound(b: Book, leaders: seq<PlayerId>)
    requires Consistent(b)
    ensures Follows(b, SettledEach(b, leaders))
  {
    var gone := HollowAmong(b, leaders);
    SettlingIsSimultaneous(b, leaders);
    forall m | m in b.memberships ensures b.memberships[m] !in gone {
      assert m in Members(b, b.memberships[m]);
    }
    forall p | p in b.invitations ensures b.invitations[p] !! gone {
      forall l | l in b.invitations[p] ensures l !in gone {
        assert Invites(b, l);
      }
    }
  }

  lemma PromotionIsConsistent(b: Book, leader: PlayerId, heir: PlayerId)
    requires Consistent(b) && leader in b.leaders && heir in Members(b, leader)
    ensures Consistent(Promoted(b, leader, heir))
    ensures Named(Promoted(b, leader, heir)) <= Named(b) && !Affiliated(Promoted(b, leader, heir), leader)
  {
    var after := Promoted(b, leader, heir);
    assert heir !in b.leaders && leader !in b.memberships;
    forall m | m in after.memberships ensures after.memberships[m] in after.leaders {
      assert b.memberships[m] in b.leaders;
    }
    forall p | p in after.invitations ensures after.invitations[p] != {} && after.invitations[p] <= after.leaders {
      assert b.invitations[p] != {} && b.invitations[p] <= b.leaders;
      assert leader in b.invitations[p] ==> heir in after.invitations[p];
    }
  }

  lemma PromotionIsSound(b: Book, leader: PlayerId, heir: PlayerId)
    requires Consistent(b) && leader in b.leaders && heir in Members(b, leader)
    ensures Follows(b, Promoted(b, leader, heir)) && !Affiliated(Promoted(b, leader, heir), leader)
  {
    var after := Promoted(b, leader, heir);
    PromotionIsConsistent(b, leader, heir);
    if NoSelfInvites(b) {
      forall p | p in after.invitations
        ensures p !in after.invitations[p] && (p in after.memberships ==> after.memberships[p] !in after.invitations[p])
      {
        assert p !in b.invitations[p] && (p in b.memberships ==> b.memberships[p] !in b.invitations[p]);
        assert b.invitations[p] <= b.leaders && heir !in b.invitations[p];
      }
    }
  }

  lemma LeaderGoneIsSound(b: Book, leader: PlayerId)
    requires Consistent(b) && leader in b.leaders
    ensures Follows(b, LeaderGone(b, leader)) && !Affiliated(LeaderGone(b, leader), leader)
  {
    if Members(b, leader) == {} {
      DisbandingIsSound(b, leader);
    } else {
      PromotionIsSound(b, leader, Heir(b, leader));
    }
  }

  lemma OutOfPartyIsSound(b: Book, p: PlayerId)
    requires Consistent(b)
    ensures Follows(b, OutOfParty(b, p)) && !Affiliated(OutOfParty(b, p), p)
  {
    if p in b.leaders {
      LeaderGoneIsSound(b, p);
    } else if p in b.memberships {
      DisbandingIsSound(b.(memberships := b.memberships - {p}), b.memberships[p]);
    }
  }

  lemma DroppingIsSound(b: Book, p: PlayerId)
    requires Consistent(b)
    ensures Follows(b, InvitationsDropped(b, p)) && p !in InvitationsDropped(b, p).invitations
    ensures InvitationsDropped(b, p).memberships == b.memberships
    ensures InvitationsDropped(b, p).leaders <= b.leaders
  {
    if p in b.invitations {
      SettlingIsSound(b.(invitations := b.invitations - {p}), Ascending(b.invitations[p]));
      SettlingIsSimultaneous(b.(invitations := b.invitations - {p}), Ascending(b.invitations[p]));
    }
  }

  // ----- every command keeps the invariant -----

  lemma AcceptKeepsInv(b: Book, p: PlayerId, leader: PlayerId)
    requires Inv(b) && Accepted(b, p, leader).Ok?
    ensures Inv(Accepted(b, p, leader).value)
    ensures NoSelfInvites(b) ==> NoSelfInvites(Accepted(b, p, leader).value)
  {
    // The joiner's own invitations are gone before anybody could be invited by his own leader.
    var joined := b.(memberships := b.memberships[p := leader]);
    DroppingIsSound(joined, p);
    var rest := b.(memberships := b.memberships[p := leader], invitations := b.invitations - {p});
    SettlingIsSound(rest, Ascending(b.invitations[p]));
  }

  lemma RevokeKeepsInv(b: Book, leader: PlayerId, p: PlayerId)
    requires Inv(b) && Revoked(b, leader, p).Ok?
    ensures Inv(Revoked(b, leader, p).value)
    ensures NoSelfInvites(b) ==> NoSelfInvites(Revoked(b, leader, p).value)
  {
    var left := b.invitations[p] - {leader};
    DisbandingIsSound(b.(invitations := if left == {} then b.invitations - {p} else b.invitations[p := left]), leader);
  }

  lemma TransferKeepsInv(b: Book, leader: PlayerId, heir: PlayerId)
    requires Inv(b) && Transferred(b, leader, heir).Ok?
    ensures Inv(Transferred(b, leader, heir).value)
    ensures NoSelfInvites(b) ==> NoSelfInvites(Transferred(b, leader, heir).value)
  {
    PromotionIsSound(b, leader, heir);
    var after := Promoted(b, leader, heir);
    if leader in b.invitations {
      assert b.invitations[leader] <= b.leaders && heir !in b.leaders;
    }
  }

  lemma RemovalKeepsInv(b: Book, p: PlayerId)
    requires Inv(b) && Removed(b, p).Ok?
    ensures Inv(Removed(b, p).value) && p !in Named(Removed(b, p).value)
    ensures NoSelfInvites(b) ==> NoSelfInvites(Removed(b, p).value)
  {
    var gone := b.(online := b.online - {p}, activity := b.activity - {p});
    var out := OutOfParty(gone, p);
    OutOfPartyIsSound(gone, p);
    DroppingIsSound(out, p);
  }

  lemma RestoreKeepsInv(b: Book, leader: PlayerId, members: seq<PlayerId>)
    requires Inv(b) && Restored(b, leader, members).Ok?
    ensures Inv(Restored(b, leader, members).value)
    ensures NoSelfInvites(b) ==> NoSelfInvites(Restored(b, leader, members).value)
  {
    forall p | p in b.invitations ensures leader !in b.invitations[p] {
      assert b.invitations[p] <= b.leaders;
    }
  }

  /** The one command that can leave a member invited by his own leader, and when it does. */
  lemma AddingKeepsInv(b: Book, leader: PlayerId, p: PlayerId)
    requires Inv(b) && Added(b, leader, p).Ok?
    ensures Inv(Added(b, leader, p).value)
    ensures NoSelfInvites(b) ==>
      (NoSelfInvites(Added(b, leader, p).value) <==> !(p in b.invitations && leader in b.invitations[p]))
  {
    var after := Added(b, leader, p).value;
    assert p in after.invitations ==> after.memberships[p] == leader;
  }

  lemma CommandKeepsInv(b: Book, c: Command)
    requires Inv(b)
    ensures Inv(After(b, c))
    ensures NoSelfInvites(b) && !c.AddExisting? ==> NoSelfInvites(After(b, c))
  {
    if Outcome(b, c).Ok? {
      match c
      case Invite(leader, p) =>
      case Accept(p, leader) => AcceptKeepsInv(b, p, leader);
      case Leave(p) => OutOfPartyIsSound(b, p);
      case Transfer(leader, heir) => TransferKeepsInv(b, leader, heir);
      case Revoke(leader, p) => RevokeKeepsInv(b, leader, p);
      case Restore(leader, members) => RestoreKeepsInv(b, leader, members);
      case AddExisting(leader, p) => AddingKeepsInv(b, leader, p);
      case Request(leader, wanted) =>
      case Mark(p, tick) =>
      case Join(p) =>
      case Remove(p) => RemovalKeepsInv(b, p);
    }
  }

  /** Every run keeps the collections consistent; without direct additions nobody is invited by his own leader. */
  lemma {:induction false} RunKeepsInv(cs: seq<Command>)
    ensures Inv(Run(EMPTY, cs))
    ensures (forall c | c in cs :: !c.AddExisting?) ==> NoSelfInvites(Run(EMPTY, cs))
  {
    if cs != [] {
      var front, c := cs[..|cs| - 1], cs[|cs| - 1];
      assert cs == front + [c];
      RunKeepsInv(front);
      CommandKeepsInv(Run(EMPTY, front), c);
    }
  }
}
