/** The bounded breadth-first search a static creature uses to get around an obstacle. */
module Detour {
  import opened Prelude
  import opened Geometry

  /** What the search consults: walkable tiles, and tiles taken by players or other creatures. */
  datatype Terrain = Terrain(walkable: set<Position>, taken: set<Position>)

  predicate Free(t: Terrain, p: Position) {
    p in t.walkable && p !in t.taken
  }

  /** The free tile one step away, if there is one. */
  function Hop(t: Terrain, p: Position, d: Direction): Option<Position> {
    match Step(p, d)
    case Err => None
    case Ok(q) => if Free(t, q) then Some(q) else None
  }

  /** Where a sequence of steps over free tiles ends. */
  function Reach(t: Terrain, source: Position, route: seq<Direction>): Option<Position> {
    if route == [] then Some(source)
    else
      match Reach(t, source, route[..|route| - 1])
      case None => None
      case Some(p) => Hop(t, p, route[|route| - 1])
  }

  lemma {:induction false} FirstHop(t: Terrain, source: Position, route: seq<Direction>)
    requires route != [] && Reach(t, source, route).Some?
    ensures Hop(t, source, route[0]).Some?
    decreases |route|
  {
    if |route| > 1 {
      FirstHop(t, source, route[..|route| - 1]);
    }
  }

  /** A route that brings the creature next to its target. */
  predicate Arrives(t: Terrain, source: Position, target: Position, route: seq<Direction>) {
    route != [] && Reach(t, source, route).Some? && Adjacent(Reach(t, source, route).value, target)
  }

  /** Shorter routes come first; among equally short ones, the earlier first direction. */
  predicate NoWorse(a: seq<Direction>, b: seq<Direction>)
    requires a != [] && b != []
  {
    |a| < |b| || (|a| == |b| && Rank(a[0]) <= Rank(b[0]))
  }

  /** The answer the search has to give. */
  ghost predicate IsDetour(t: Terrain, source: Position, target: Position, limit: nat, answer: Option<Direction>) {
    match answer
    case None => forall r | Arrives(t, source, target, r) :: |r| > limit
    case Some(d) =>
      exists r ::
        && Arrives(t, source, target, r) && |r| <= limit && r[0] == d
        && forall other | Arrives(t, source, target, other) :: NoWorse(r, other)
  }

  // ----- the search -----

  datatype Entry = Entry(position: Position, first: Option<Direction>, distance: nat)

  /** The route by which each free tile was found. */
  type Routes = map<Position, seq<Direction>>

  /** Every free neighbour of `p` has been found, at most one step further out. */
  ghost predicate Expanded(t: Terrain, found: Routes, p: Position)
    requires p in found
  {
    forall d :: Hop(t, p, d).Some? ==>
      Hop(t, p, d).value in found && |found[Hop(t, p, d).value]| <= |found[p]| + 1
  }

  ghost predicate Covered(t: Terrain, source: Position, found: Routes, horizon: nat) {
    && source in found && found[source] == []
    && forall p | p in found && |found[p]| < horizon :: Expanded(t, found, p)
  }

  /** Within the horizon every route ends on a tile already found, by a route no longer than it. */
  lemma {:induction false} RoutesAreFound(t: Terrain, source: Position, found: Routes, horizon: nat, r: seq<Direction>)
    requires Covered(t, source, found, horizon)
    requires Reach(t, source, r).Some? && |r| <= horizon
    ensures Reach(t, source, r).value in found && |found[Reach(t, source, r).value]| <= |r|
  {
    if r != [] {
      var front := r[..|r| - 1];
      RoutesAreFound(t, source, found, horizon, front);
      var p := Reach(t, source, front).value;
      assert Expanded(t, found, p);
      assert Hop(t, p, r[|r| - 1]).Some?;
    }
  }

  /** Facts about the tiles found so far that no step of the search breaks. */
  ghost predicate Sound(t: Terrain, source: Position, target: Position, visited: set<Position>, found: Routes) {
    && source in found && found[source] == []
    && found.Keys <= visited
    && (forall p | p in visited && p !in found :: !Free(t, p))
    && (forall p | p in found :: Reach(t, source, found[p]) == Some(p))
    && (forall p | p in found :: !Adjacent(p, target))
    && (forall p | p in found && found[p] == [] :: p == source)
    && (forall p, r | p in found && Reach(t, source, r) == Some(p) && |r| == |found[p]| && r != [] ::
          Rank(found[p][0]) <= Rank(r[0]))
  }

  predicate Records(e: Entry, found: Routes) {
    && e.position in found && e.distance == |found[e.position]|
    && e.first == if found[e.position] == [] then None else Some(found[e.position][0])
  }

  /** The queue behind an entry `head`: at most one level further, and sorted by first direction. */
  predicate Behind(head: Entry, e: Entry) {
    && head.distance <= e.distance <= head.distance + 1
    && e.first.Some?
    && (head.first.Some? ==>
          if e.distance == head.distance then Rank(head.first.value) <= Rank(e.first.value)
          else Rank(e.first.value) <= Rank(head.first.value))
  }

  predicate InOrder(queue: seq<Entry>) {
    forall i, j | 0 <= i < j < |queue| :: Behind(queue[i], queue[j])
  }

  predicate Queued(queue: seq<Entry>, p: Position) {
    exists i :: 0 <= i < |queue| && queue[i].position == p
  }

  /** Everything found but no longer queued has been expanded, unless it lies at the limit. */
  ghost predicate Settled(t: Terrain, found: Routes, queue: seq<Entry>, limit: nat) {
    forall p | p in found && !Queued(queue, p) && |found[p]| < limit :: Expanded(t, found, p)
  }

  /** While `head` is being expanded: everything nearer than it is expanded. */
  lemma NearerIsExpanded(t: Terrain, source: Position, found: Routes, head: Entry, rest: seq<Entry>, limit: nat)
    requires source in found && found[source] == []
    requires Records(head, found) && head.distance <= limit
    requires forall e | e in rest :: Records(e, found) && Behind(head, e)
    requires Settled(t, found, [head] + rest, limit)
    ensures Covered(t, source, found, head.distance)
  {
    var queue := [head] + rest;
    forall i | 0 <= i < |queue|
      ensures queue[i].position in found && |found[queue[i].position]| >= head.distance
    {
      if i > 0 {
        assert queue[i] == rest[i - 1] && rest[i - 1] in rest;
      }
    }
  }

  /** The state of the search while `head` is being expanded in direction order. */
  ghost predicate Expanding(t: Terrain, source: Position, target: Position, limit: nat,
                            visited: set<Position>, found: Routes, head: Entry, queue: seq<Entry>, tried: nat)
  {
    && Sound(t, source, target, visited, found)
    && Records(head, found) && head.distance < limit
    && (forall e | e in queue :: Records(e, found) && Behind(head, e))
    && InOrder(queue)
    && Settled(t, found, [head] + queue, limit)
    && (forall p | p in found :: |found[p]| <= head.distance + 1)
    && (forall d | Rank(d) < tried && Hop(t, head.position, d).Some? :: Hop(t, head.position, d).value in found)
    && (head.first.None? ==> forall e | e in queue :: Rank(e.first.value) < tried)
  }

  function FirstStep(head: Entry, d: Direction): Direction {
    if head.first.Some? then head.first.value else d
  }

  /** A tile not yet found is reached by no shorter route, and by no equally long one that starts earlier. */
  lemma NewTileIsNoWorse(t: Terrain, source: Position, target: Position, limit: nat,
                         visited: set<Position>, found: Routes, head: Entry, queue: seq<Entry>, d: Direction,
                         other: seq<Direction>)
    requires Expanding(t, source, target, limit, visited, found, head, queue, Rank(d))
    requires Reach(t, source, other).Some? && Reach(t, source, other).value !in found
    ensures |other| > head.distance
    ensures |other| == head.distance + 1 ==> Rank(FirstStep(head, d)) <= Rank(other[0])
  {
    NearerIsExpanded(t, source, found, head, queue, limit);
    if |other| <= head.distance {
      RoutesAreFound(t, source, found, head.distance, other);
    } else if |other| == head.distance + 1 {
      var front := other[..head.distance];
      RoutesAreFound(t, source, found, head.distance, front);
      var p := Reach(t, source, front).value;
      assert Hop(t, p, other[head.distance]).Some?;
      if !Expanded(t, found, p) {
        assert Queued([head] + queue, p);
        var i :| 0 <= i < |[head] + queue| && ([head] + queue)[i].position == p;
        if i > 0 {
          assert ([head] + queue)[i] == queue[i - 1] && queue[i - 1] in queue;
        }
        assert |found[p]| == |front|;
        assert p == head.position || Behind(head, queue[i - 1]);
      }
    }
  }

  lemma DiscoverIsSound(t: Terrain, source: Position, target: Position, limit: nat,
                        visited: set<Position>, found: Routes, head: Entry, queue: seq<Entry>, d: Direction)
    requires Expanding(t, source, target, limit, visited, found, head, queue, Rank(d))
    requires Hop(t, head.position, d).Some? && Hop(t, head.position, d).value !in visited
    requires !Adjacent(Hop(t, head.position, d).value, target)
    ensures var q := Hop(t, head.position, d).value;
      Sound(t, source, target, visited + {q}, found[q := found[head.position] + [d]])
  {
    var q := Hop(t, head.position, d).value;
    var route := found[head.position] + [d];
    var after := found[q := route];
    assert route[..|route| - 1] == found[head.position];
    assert Reach(t, source, route) == Some(q);
    forall p, r | p in after && Reach(t, source, r) == Some(p) && |r| == |after[p]| && r != []
      ensures Rank(after[p][0]) <= Rank(r[0])
    {
      if p == q {
        NewTileIsNoWorse(t, source, target, limit, visited, found, head, queue, d, r);
      }
    }
  }

  lemma DiscoverKeepsOrder(found: Routes, head: Entry, queue: seq<Entry>, q: Position, d: Direction)
    requires Records(head, found) && q !in found
    requires forall e | e in queue :: Records(e, found) && Behind(head, e)
    requires InOrder(queue)
    requires head.first.None? ==> forall e | e in queue :: e.first.Some? && Rank(e.first.value) < Rank(d)
    ensures var entry := Entry(q, Some(FirstStep(head, d)), head.distance + 1);
      var after := found[q := found[head.position] + [d]];
      && (forall e | e in queue + [entry] :: Records(e, after) && Behind(head, e))
      && InOrder(queue + [entry])
  {
    var entry := Entry(q, Some(FirstStep(head, d)), head.distance + 1);
    var longer := queue + [entry];
    forall i, j | 0 <= i < j < |longer| ensures Behind(longer[i], longer[j]) {
      if j == |queue| {
        assert longer[i] in queue;
        assert Records(longer[i], found) && Behind(head, longer[i]);
      }
    }
  }

  lemma QueuedGrows(queue: seq<Entry>, entry: Entry, p: Position)
    ensures Queued(queue + [entry], p) <==> Queued(queue, p) || p == entry.position
  {
    assert (queue + [entry])[|queue|] == entry;
    forall i | 0 <= i < |queue| ensures (queue + [entry])[i] == queue[i] {}
  }

  lemma DiscoverKeepsSettled(t: Terrain, found: Routes, queue: seq<Entry>, entry: Entry, route: seq<Direction>, limit: nat)
    requires Settled(t, found, queue, limit) && entry.position !in found
    ensures Settled(t, found[entry.position := route], queue + [entry], limit)
  {
    var after, longer := found[entry.position := route], queue + [entry];
    forall p | p in after && !Queued(longer, p) && |after[p]| < limit
      ensures Expanded(t, after, p)
    {
      QueuedGrows(queue, entry, p);
      assert Expanded(t, found, p);
    }
  }

  /** Records a newly found tile behind everything queued. */
  lemma Discover(t: Terrain, source: Position, target: Position, limit: nat,
                 visited: set<Position>, found: Routes, head: Entry, queue: seq<Entry>, d: Direction, tried: nat)
    requires Rank(d) == tried && Expanding(t, source, target, limit, visited, found, head, queue, tried)
    requires Hop(t, head.position, d).Some? && Hop(t, head.position, d).value !in visited
    requires !Adjacent(Hop(t, head.position, d).value, target)
    ensures var q := Hop(t, head.position, d).value;
      Expanding(t, source, target, limit, visited + {q}, found[q := found[head.position] + [d]], head,
                queue + [Entry(q, Some(FirstStep(head, d)), head.distance + 1)], tried + 1)
  {
    var q := Hop(t, head.position, d).value;
    var entry := Entry(q, Some(FirstStep(head, d)), head.distance + 1);
    DiscoverIsSound(t, source, target, limit, visited, found, head, queue, d);
    DiscoverKeepsOrder(found, head, queue, q, d);
    DiscoverKeepsSettled(t, found, [head] + queue, entry, found[head.position] + [d], limit);
    assert [head] + queue + [entry] == [head] + (queue + [entry]);
    OnlyDirectionOfRank(d);
  }

  lemma OnlyDirectionOfRank(d: Direction)
    ensures forall e :: Rank(e) < Rank(d) + 1 <==> Rank(e) < Rank(d) || e == d
  {
  }

  /** The state of the search between two tiles. */
  ghost predicate Searching(t: Terrain, source: Position, target: Position, limit: nat,
                            visited: set<Position>, found: Routes, queue: seq<Entry>)
  {
    && Sound(t, source, target, visited, found)
    && (forall i | 0 <= i < |queue| :: Records(queue[i], found))
    && InOrder(queue)
    && Settled(t, found, queue, limit)
    && (queue != [] ==> forall p | p in found :: |found[p]| <= queue[0].distance + 1)
    && (|queue| > 1 ==> queue[0].first.Some?)
  }

  lemma PopAtLimit(t: Terrain, source: Position, target: Position, limit: nat,
                   visited: set<Position>, found: Routes, queue: seq<Entry>)
    requires Searching(t, source, target, limit, visited, found, queue)
    requires queue != [] && queue[0].distance >= limit
    ensures Searching(t, source, target, limit, visited, found, queue[1..])
  {
    var rest := queue[1..];
    assert queue == [queue[0]] + rest;
    forall p ensures Queued(queue, p) <==> p == queue[0].position || Queued(rest, p) {
      QueuedBehind(queue[0], rest, p);
    }
    RestInOrder(queue);
  }

  lemma RestInOrder(queue: seq<Entry>)
    requires queue != [] && InOrder(queue)
    ensures InOrder(queue[1..])
    ensures forall e | e in queue[1..] :: Behind(queue[0], e)
  {
    var rest := queue[1..];
    forall i, j | 0 <= i < j < |rest| ensures Behind(rest[i], rest[j]) {
      assert Behind(queue[i + 1], queue[j + 1]);
    }
    forall i | 0 <= i < |rest| ensures Behind(queue[0], rest[i]) {
      assert rest[i] == queue[i + 1];
    }
  }

  lemma QueuedBehind(head: Entry, rest: seq<Entry>, p: Position)
    ensures Queued([head] + rest, p) <==> p == head.position || Queued(rest, p)
  {
    var queue := [head] + rest;
    assert queue[0] == head;
    forall i | 0 <= i < |rest| ensures queue[i + 1] == rest[i] {}
    if Queued(queue, p) && p != head.position {
      var i :| 0 <= i < |queue| && queue[i].position == p;
      assert rest[i - 1].position == p;
    }
  }

  lemma PopToExpand(t: Terrain, source: Position, target: Position, limit: nat,
                    visited: set<Position>, found: Routes, queue: seq<Entry>)
    requires Searching(t, source, target, limit, visited, found, queue)
    requires queue != [] && queue[0].distance < limit
    ensures Expanding(t, source, target, limit, visited, found, queue[0], queue[1..], 0)
  {
    var head, rest := queue[0], queue[1..];
    assert queue == [head] + rest;
    RestInOrder(queue);
    forall i | 0 <= i < |rest| ensures Records(rest[i], found) {
      assert rest[i] == queue[i + 1];
    }
  }

  /** A direction that leads nowhere, or to a tile already seen, changes nothing that matters. */
  lemma NothingNew(t: Terrain, source: Position, target: Position, limit: nat,
                   visited: set<Position>, found: Routes, head: Entry, queue: seq<Entry>, d: Direction,
                   tried: nat, seen: set<Position>)
    requires Rank(d) == tried && Expanding(t, source, target, limit, visited, found, head, queue, tried)
    requires Hop(t, head.position, d).Some? ==> Hop(t, head.position, d).value in visited
    requires visited <= seen && forall p | p in seen - visited :: !Free(t, p)
    ensures Expanding(t, source, target, limit, seen, found, head, queue, tried + 1)
  {
    OnlyDirectionOfRank(d);
  }

  lemma Found(t: Terrain, source: Position, target: Position, limit: nat,
              visited: set<Position>, found: Routes, head: Entry, queue: seq<Entry>, d: Direction, tried: nat)
    requires Rank(d) == tried && Expanding(t, source, target, limit, visited, found, head, queue, tried)
    requires Hop(t, head.position, d).Some? && Adjacent(Hop(t, head.position, d).value, target)
    ensures IsDetour(t, source, target, limit, Some(FirstStep(head, d)))
  {
    var route := found[head.position] + [d];
    assert route[..|route| - 1] == found[head.position];
    assert Arrives(t, source, target, route);
    forall other | Arrives(t, source, target, other) ensures NoWorse(route, other) {
      NewTileIsNoWorse(t, source, target, limit, visited, found, head, queue, d, other);
    }
    assert route[0] == FirstStep(head, d);
  }

  lemma FullyExpanded(t: Terrain, source: Position, target: Position, limit: nat,
                      visited: set<Position>, found: Routes, head: Entry, queue: seq<Entry>)
    requires Expanding(t, source, target, limit, visited, found, head, queue, 4)
    ensures Searching(t, source, target, limit, visited, found, queue)
  {
    assert forall i | 0 <= i < |queue| :: queue[i] in queue;
    forall d ensures Rank(d) < 4 {}
    assert Expanded(t, found, head.position);
    forall p ensures Queued([head] + queue, p) <==> p == head.position || Queued(queue, p) {
      QueuedBehind(head, queue, p);
    }
  }

  lemma NoRoute(t: Terrain, source: Position, target: Position, limit: nat,
                visited: set<Position>, found: Routes)
    requires Searching(t, source, target, limit, visited, found, [])
    ensures IsDetour(t, source, target, limit, None)
  {
    assert Covered(t, source, found, limit);
    forall r | Arrives(t, source, target, r) ensures |r| > limit {
      if |r| <= limit {
        RoutesAreFound(t, source, found, limit, r);
      }
    }
  }

  /** One direction from `head`: skip it, find the target's side, or queue a new tile. */
  method TryDirection(ghost t: Terrain, source: Position, target: Position, walkable: set<Position>,
                      others: set<Position>, players: set<Position>, ghost limit: nat,
                      head: Entry, i: nat,
                      visited: set<Position>, frontier: seq<Entry>, ghost found: Routes)
    returns (answer: Option<Direction>, visited': set<Position>, frontier': seq<Entry>, ghost found': Routes)
    requires t == Terrain(walkable, others + players) && i < 4
    requires Expanding(t, source, target, limit, visited, found, head, frontier, i)
    requires found.Keys <= walkable + {source}
    ensures answer.Some? ==> IsDetour(t, source, target, limit, answer)
    ensures answer.None? ==> Expanding(t, source, target, limit, visited', found', head, frontier', i + 1)
    ensures found'.Keys <= walkable + {source}
    ensures found.Keys < found'.Keys || (found.Keys == found'.Keys && frontier' == frontier)
  {
    answer, visited', frontier', found' := None, visited, frontier, found;
    var d := DIRECTIONS[i];
    assert Rank(d) == i;
    var hop := Step(head.position, d);
    if hop.Err? {
      NothingNew(t, source, target, limit, visited, found, head, frontier, d, i, visited);
      return;
    }
    var destination := hop.value;
    visited' := visited + {destination};
    if destination in visited || destination !in walkable || destination in players || destination in others {
      NothingNew(t, source, target, limit, visited, found, head, frontier, d, i, visited');
      return;
    }
    var first := if head.first.Some? then head.first else Some(d);
    if Adjacent(destination, target) {
      Found(t, source, target, limit, visited, found, head, frontier, d, i);
      return first, visited', frontier, found;
    }
    Discover(t, source, target, limit, visited, found, head, frontier, d, i);
    assert destination !in found;
    found' := found[destination := found[head.position] + [d]];
    frontier' := frontier + [Entry(destination, first, head.distance + 1)];
  }

  /**
   * The first direction of a shortest route of at most `limit` steps to a tile beside the target,
   * or nothing when there is no such route.
   */
  method DetourDirection(source: Position, target: Position, walkable: set<Position>,
                         occupied: set<Position>, players: set<Position>, limit: nat)
    returns (answer: Option<Direction>)
    requires !Adjacent(source, target)
    ensures IsDetour(Terrain(walkable, (occupied - {source}) + players), source, target, limit, answer)
  {
    ghost var t := Terrain(walkable, (occupied - {source}) + players);
    if limit == 0 {
      return None;
    }
    var others := occupied - {source};
    var visited := {source};
    var frontier := [Entry(source, None, 0)];
    ghost var found: Routes := map[source := []];
    while frontier != []
      invariant Searching(t, source, target, limit, visited, found, frontier)
      invariant found.Keys <= walkable + {source}
      decreases walkable + {source} - found.Keys, |frontier|
    {
      var head := frontier[0];
      if head.distance >= limit {
        PopAtLimit(t, source, target, limit, visited, found, frontier);
        frontier := frontier[1..];
        continue;
      }
      ghost var before, waiting := found.Keys, |frontier|;
      PopToExpand(t, source, target, limit, visited, found, frontier);
      frontier := frontier[1..];
      for i := 0 to 4
        invariant Expanding(t, source, target, limit, visited, found, head, frontier, i)
        invariant found.Keys <= walkable + {source}
        invariant before < found.Keys || (before == found.Keys && |frontier| < waiting)
      {
        answer, visited, frontier, found :=
          TryDirection(t, source, target, walkable, others, players, limit, head, i, visited, frontier, found);
        if answer.Some? {
          return;
        }
      }
      FullyExpanded(t, source, target, limit, visited, found, head, frontier);
    }
    NoRoute(t, source, target, limit, visited, found);
    return None;
  }
}
