/**
 * Map coordinates, cardinal steps and adjacency. A step fails at the edge of the coordinate range,
 * and a tile is not adjacent to itself.
 */
module Geometry {
  import opened Prelude

  datatype Position = Position(x: u16, y: u16, z: u8)

  datatype Direction = North | East | South | West

  /** The conventional place of creatures that are not on the map. */
  const ORIGIN := Position(0, 0, 0)

  /** One cardinal step; fails only at the edge of the coordinate range. */
  function Step(p: Position, d: Direction): (r: Result<Position>)
    ensures r.Ok? ==> Adjacent(p, r.value)
  {
    match d
    case North => if p.y == 0 then Err else Ok(p.(y := p.y - 1))
    case East => if p.x == U16_MAX then Err else Ok(p.(x := p.x + 1))
    case South => if p.y == U16_MAX then Err else Ok(p.(y := p.y + 1))
    case West => if p.x == 0 then Err else Ok(p.(x := p.x - 1))
  }

  function AbsDiff(a: int, b: int): nat {
    if a <= b then b - a else a - b
  }

  predicate Adjacent(p: Position, q: Position) {
    p.z == q.z && AbsDiff(p.x, q.x) <= 1 && AbsDiff(p.y, q.y) <= 1 && p != q
  }

  /** Number of cardinal steps between two tiles of one floor. */
  function Manhattan(p: Position, q: Position): nat {
    AbsDiff(p.x, q.x) + AbsDiff(p.y, q.y)
  }

  /** The order in which the source tries directions. */
  function Rank(d: Direction): nat {
    match d
    case North => 0
    case East => 1
    case South => 2
    case West => 3
  }

  const DIRECTIONS: seq<Direction> := [North, East, South, West]

  /** North and south change y, east and west x, by one; opposite steps undo each other. */
  lemma StepsAreOpposite(p: Position, d: Direction)
    requires Step(p, d).Ok?
    ensures var q, back := Step(p, d).value, DIRECTIONS[(Rank(d) + 2) % 4];
      && DIRECTIONS[Rank(d)] == d && Step(q, back) == Ok(p)
      && (d.North? ==> q.y < p.y) && (d.East? ==> q.x > p.x) && (d.South? ==> q.y > p.y) && (d.West? ==> q.x < p.x)
      && q.z == p.z && Manhattan(p, q) == 1
  {
    assert (Rank(d) + 2) % 4 == if Rank(d) < 2 then Rank(d) + 2 else Rank(d) - 2;
  }

  /** The directions go clockwise from north: the next one turns a step to the right. */
  lemma DirectionsGoClockwise(p: Position, d: Direction)
    requires Step(p, d).Ok? && Step(p, DIRECTIONS[(Rank(d) + 1) % 4]).Ok?
    ensures var q, next := Step(p, d).value, Step(p, DIRECTIONS[(Rank(d) + 1) % 4]).value;
      DIRECTIONS[0] == North && next.x - p.x == p.y - q.y && next.y - p.y == q.x - p.x
  {
    assert (Rank(d) + 1) % 4 == if Rank(d) < 3 then Rank(d) + 1 else 0;
  }

  /** A step fails exactly at the edge it leads to. */
  lemma StepFailsAtTheEdge(p: Position, d: Direction)
    ensures Step(p, d).Err? <==>
      || (p.x == 0 && d == West) || (p.x == 0xFFFF && d == East)
      || (p.y == 0 && d == North) || (p.y == 0xFFFF && d == South)
  {
  }

  /** The eight tiles around a tile are adjacent to it, and no others. */
  lemma EightAreAdjacent(p: Position, q: Position)
    ensures Adjacent(p, q) <==>
      q.z == p.z && -1 <= q.x - p.x <= 1 && -1 <= q.y - p.y <= 1 && !(q.x == p.x && q.y == p.y)
  {
  }
}
