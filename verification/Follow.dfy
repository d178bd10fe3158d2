/** Moving towards a target one cardinal step at a time, and the deterministic follow pass. */
module Follow {
  import opened Prelude
  import opened Geometry
  import opened Creatures

  type Crowd = map<PlayerId, Position>

  function PlayerTiles(players: Crowd): set<Position> {
    set id | id in players :: players[id]
  }

  /** No two players share a tile. */
  predicate Spread(players: Crowd) {
    forall a, b | a in players && b in players && a != b :: players[a] != players[b]
  }

  /** The directions that lead closer to `target`, the longer axis first. */
  function Toward(source: Position, target: Position): (ds: seq<Direction>)
    ensures |ds| <= 2
  {
    var x := if target.x < source.x then [West] else if target.x > source.x then [East] else [];
    var y := if target.y < source.y then [North] else if target.y > source.y then [South] else [];
    if AbsDiff(source.x, target.x) >= AbsDiff(source.y, target.y) then x + y else y + x
  }

  /** None of these directions leaves the coordinate range, and each saves exactly one step. */
  lemma TowardGetsCloser(source: Position, target: Position)
    ensures forall d | d in Toward(source, target) ::
      Step(source, d).Ok? && Manhattan(Step(source, d).value, target) + 1 == Manhattan(source, target)
  {
  }

  /** The step `d` leads closer along its own axis. */
  predicate Nears(p: Position, q: Position, d: Direction) {
    match d
    case North => q.y < p.y
    case East => q.x > p.x
    case South => q.y > p.y
    case West => q.x < p.x
  }

  /** The axis on which more steps are missing; east and west if as many are missing on both. */
  predicate Longer(p: Position, q: Position, d: Direction) {
    var dx, dy := if q.x < p.x then p.x - q.x else q.x - p.x, if q.y < p.y then p.y - q.y else q.y - p.y;
    if d.East? || d.West? then dx >= dy else dx < dy
  }

  /** A passable side that leads closer, on the longer axis unless no such side on it is passable. */
  predicate Preferred(p: Position, q: Position, g: Ground, taken: set<Position>, d: Direction) {
    && Nears(p, q, d) && Passable(p, d, g, taken)
    && (Longer(p, q, d) || forall e | Nears(p, q, e) && Longer(p, q, e) :: !Passable(p, e, g, taken))
  }

  predicate NothingCloser(p: Position, q: Position, g: Ground, taken: set<Position>) {
    forall d | Nears(p, q, d) :: !Passable(p, d, g, taken)
  }

  /** The first free tile towards a target is the preferred one, and there is none exactly if nothing closer is free. */
  lemma TowardMeans(p: Position, q: Position, g: Ground, taken: set<Position>)
    ensures var first := FirstFree(p, Toward(p, q), g.walkable, g.players + taken);
      (forall d :: first == Some(d) <==> Preferred(p, q, g, taken, d)) && (first == None <==> NothingCloser(p, q, g, taken))
  {
    var ds := Toward(p, q);
    forall d ensures d in ds <==> Nears(p, q, d) {}
    if |ds| > 1 {
      assert Longer(p, q, ds[0]) && !Longer(p, q, ds[1]);
      assert ds[1..] == [ds[1]];
    }
    forall d: Direction ensures Passable(p, d, g, taken) <==> FirstFree(p, [d], g.walkable, g.players + taken) == Some(d) {}
  }

  // ----- the follow pass -----

  /** What does not change during a pass. */
  datatype Scene = Scene(walkable: set<Position>, creatures: set<Position>, dead: set<PlayerId>,
                         follows: map<PlayerId, PlayerId>)

  function OthersThan(players: Crowd, id: PlayerId): set<Position> {
    set other | other in players && other != id :: players[other]
  }

  /** The step a player takes when its turn comes. */
  function Turn(players: Crowd, id: PlayerId, s: Scene): (r: Option<Direction>)
    requires id in players
    ensures r.Some? ==> Step(players[id], r.value).Ok?
  {
    if id !in s.follows || s.follows[id] !in players || id in s.dead || s.follows[id] in s.dead then None
    else
      var source, target := players[id], players[s.follows[id]];
      if Adjacent(source, target) || source.z != target.z then None
      else FirstFree(source, Toward(source, target), s.walkable, s.creatures + OthersThan(players, id))
  }

  function AfterTurn(players: Crowd, id: PlayerId, s: Scene): (after: Crowd)
    requires id in players
    ensures after.Keys == players.Keys
  {
    match Turn(players, id, s)
    case None => players
    case Some(d) => players[id := Step(players[id], d).value]
  }

  /** The whole pass: every player in turn, each seeing where the earlier ones have gone. */
  function AfterTurns(players: Crowd, ids: seq<PlayerId>, s: Scene): (after: Crowd)
    requires forall id | id in ids :: id in players
    ensures after.Keys == players.Keys
    decreases |ids|
  {
    if ids == [] then players
    else AfterTurn(AfterTurns(players, ids[..|ids| - 1], s), ids[|ids| - 1], s)
  }

  predicate EachOnce(ids: seq<PlayerId>) {
    forall i, j | 0 <= i < j < |ids| :: ids[i] != ids[j]
  }

  /** A living player after a living target on his floor that is not next to him. */
  predicate Pursues(players: Crowd, id: PlayerId, s: Scene)
    requires id in players
  {
    && id in s.follows && s.follows[id] in players && id !in s.dead && s.follows[id] !in s.dead
    && players[id].z == players[s.follows[id]].z && !Adjacent(players[id], players[s.follows[id]])
  }

  /** Such a player takes the preferred step, and stands still only if nothing closer is free; others stand still. */
  predicate ChoosesWell(players: Crowd, after: Crowd, id: PlayerId, s: Scene)
    requires id in players && after.Keys == players.Keys
  {
    if Pursues(players, id, s) then
      var p, q, g, taken := players[id], players[s.follows[id]], Ground(s.walkable, s.creatures), OthersThan(players, id);
      && (forall d | Preferred(p, q, g, taken, d) :: Step(p, d) == Ok(after[id]))
      && (after[id] == p ==> NothingCloser(p, q, g, taken))
    else after[id] == players[id]
  }

  /** One turn moves at most its own player, by one step that saves one step, onto a free tile. */
  predicate GoodTurn(players: Crowd, after: Crowd, id: PlayerId, s: Scene)
    requires id in players && after.Keys == players.Keys
  {
    && (forall other | other in players && other != id :: after[other] == players[other])
    && (after[id] != players[id] ==>
          && id in s.follows && s.follows[id] in players
          && id !in s.dead && s.follows[id] !in s.dead
          && (exists d :: Step(players[id], d) == Ok(after[id]))
          && Manhattan(after[id], players[s.follows[id]]) + 1 == Manhattan(players[id], players[s.follows[id]])
          && after[id] in s.walkable && after[id] !in s.creatures && after[id] !in OthersThan(players, id))
    && ChoosesWell(players, after, id, s)
  }

  lemma TurnChoosesWell(players: Crowd, id: PlayerId, s: Scene)
    requires id in players
    ensures ChoosesWell(players, AfterTurn(players, id, s), id, s)
  {
    if Pursues(players, id, s) {
      TowardMeans(players[id], players[s.follows[id]], Ground(s.walkable, s.creatures), OthersThan(players, id));
    }
  }

  lemma TurnIsGood(players: Crowd, id: PlayerId, s: Scene)
    requires id in players
    ensures GoodTurn(players, AfterTurn(players, id, s), id, s)
    ensures AfterTurn(players, id, s)[id] != players[id] <==> Turn(players, id, s).Some?
    ensures Spread(players) ==> Spread(AfterTurn(players, id, s))
    ensures PlayerTiles(players) !! s.creatures ==> PlayerTiles(AfterTurn(players, id, s)) !! s.creatures
  {
    var after := AfterTurn(players, id, s);
    TurnChoosesWell(players, id, s);
    if Turn(players, id, s).Some? {
      var d := Turn(players, id, s).value;
      TowardGetsCloser(players[id], players[s.follows[id]]);
      assert Step(players[id], d) == Ok(after[id]);
      forall other | other in players && other != id ensures after[other] != after[id] {
        assert players[other] in OthersThan(players, id);
      }
    }
  }

  lemma {:induction false} PassKeepsTilesApart(players: Crowd, ids: seq<PlayerId>, s: Scene)
    requires forall id | id in ids :: id in players
    ensures Spread(players) ==> Spread(AfterTurns(players, ids, s))
    ensures PlayerTiles(players) !! s.creatures ==> PlayerTiles(AfterTurns(players, ids, s)) !! s.creatures
    decreases |ids|
  {
    if ids != [] {
      PassKeepsTilesApart(players, ids[..|ids| - 1], s);
      TurnIsGood(AfterTurns(players, ids[..|ids| - 1], s), ids[|ids| - 1], s);
    }
  }

  /** Turns of other players do not move a player. */
  lemma {:induction false} OthersDoNotMoveIt(players: Crowd, ids: seq<PlayerId>, s: Scene, id: PlayerId, from: nat)
    requires from <= |ids| && id in players
    requires forall other | other in ids :: other in players
    requires forall i | from <= i < |ids| :: ids[i] != id
    ensures AfterTurns(players, ids, s)[id] == AfterTurns(players, ids[..from], s)[id]
    decreases |ids|
  {
    if from < |ids| {
      var front := ids[..|ids| - 1];
      assert front[..from] == ids[..from];
      OthersDoNotMoveIt(players, front, s, id, from);
      TurnIsGood(AfterTurns(players, front, s), ids[|ids| - 1], s);
    } else {
      assert ids[..from] == ids;
    }
  }

  /**
   * A pass seen by the i-th player: it stands where it started until its turn, its turn is a good
   * one against the positions of that moment, and it stays where the turn leaves it.
   */
  lemma {:induction false} TurnInPass(players: Crowd, ids: seq<PlayerId>, s: Scene, i: nat)
    requires EachOnce(ids) && forall id | id in ids :: id in players
    requires i < |ids|
    ensures AfterTurns(players, ids[..i], s)[ids[i]] == players[ids[i]]
    ensures GoodTurn(AfterTurns(players, ids[..i], s), AfterTurns(players, ids[..i + 1], s), ids[i], s)
    ensures AfterTurns(players, ids, s)[ids[i]] == AfterTurns(players, ids[..i + 1], s)[ids[i]]
  {
    var before := ids[..i];
    assert ids[..i + 1][..i] == before;
    OthersDoNotMoveIt(players, before, s, ids[i], 0);
    assert before[..0] == [];
    TurnIsGood(AfterTurns(players, before, s), ids[i], s);
    OthersDoNotMoveIt(players, ids, s, ids[i], i + 1);
  }

  /** The players that a pass has moved. */
  function Displaced(before: Crowd, now: Crowd): set<PlayerId>
    requires now.Keys == before.Keys
  {
    set id | id in before && now[id] != before[id]
  }

  /** `moved` names exactly the players that are no longer where they started. */
  predicate MovedSoFar(before: Crowd, now: Crowd, moved: set<PlayerId>)
    requires now.Keys == before.Keys
  {
    moved <= before.Keys && forall id | id in before :: id in moved <==> now[id] != before[id]
  }

  /** The state of the pass after the first `i` turns. */
  predicate PassAt(before: Crowd, now: Crowd, ids: seq<PlayerId>, s: Scene, i: nat, moved: set<PlayerId>)
    requires (forall id | id in ids :: id in before) && i <= |ids|
  {
    now == AfterTurns(before, ids[..i], s) && MovedSoFar(before, now, moved)
  }

  lemma PassStart(before: Crowd, ids: seq<PlayerId>, s: Scene)
    requires forall id | id in ids :: id in before
    ensures PassAt(before, before, ids, s, 0, {})
  {
    assert ids[..0] == [];
  }

  lemma PassStep(before: Crowd, now: Crowd, ids: seq<PlayerId>, s: Scene, i: nat, moved: set<PlayerId>)
    requires EachOnce(ids) && (forall id | id in ids :: id in before) && i < |ids|
    requires PassAt(before, now, ids, s, i, moved)
    ensures ids[i] in now
    ensures PassAt(before, AfterTurn(now, ids[i], s), ids, s, i + 1,
                   moved + if Turn(now, ids[i], s).Some? then {ids[i]} else {})
  {
    assert ids[..i + 1][..i] == ids[..i];
    TurnInPass(before, ids, s, i);
    TurnIsGood(now, ids[i], s);
  }

  lemma {:induction false} PassEnd(before: Crowd, now: Crowd, ids: seq<PlayerId>, s: Scene, moved: set<PlayerId>)
    requires forall id | id in ids :: id in before
    requires PassAt(before, now, ids, s, |ids|, moved)
    ensures now == AfterTurns(before, ids, s) && moved == Displaced(before, now)
    ensures Spread(before) ==> Spread(now)
  {
    assert ids[..|ids|] == ids;
    PassKeepsTilesApart(before, ids, s);
  }
}
