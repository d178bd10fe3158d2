/**
 * Shared value types: machine-width integers, options and results, and the ascending order in which
 * ordered maps and sets are visited.
 */
module Prelude {

  type u8 = x: int | 0 <= x < 0x100
  type u16 = x: int | 0 <= x < 0x1_0000
  type u32 = x: int | 0 <= x < 0x1_0000_0000
  type u64 = x: int | 0 <= x < 0x1_0000_0000_0000_0000

  type PlayerId = u64

  const U16_MAX: u16 := 0xFFFF
  const U32_MAX: u32 := 0xFFFF_FFFF
  const U64_MAX: u64 := 0xFFFF_FFFF_FFFF_FFFF

  datatype Option<+T> = None | Some(value: T)

  /** Every error of the engine is one `Err` case: which message it carries is not modelled. */
  datatype Result<+T> = Ok(value: T) | Err

  /** Results of a loop that has finished `done` and has `rest` still to come. */
  function Joined<T>(done: seq<T>, rest: Result<seq<T>>): (r: Result<seq<T>>)
    ensures done == [] ==> r == rest
    ensures rest == Ok([]) ==> r == Ok(done)
  {
    match rest
    case Err => Err
    case Ok(more) =>
      assert done + [] == done && [] + more == more;
      Ok(done + more)
  }

  lemma JoinedStep<T>(done: seq<T>, x: T, rest: Result<seq<T>>)
    ensures Joined(done + [x], rest) == Joined(done, Joined([x], rest))
  {
    if rest.Ok? {
      assert done + [x] + rest.value == done + ([x] + rest.value);
    }
  }

  lemma Assoc<T>(a: seq<T>, b: seq<T>, c: seq<T>)
    ensures a + (b + c) == a + b + c
  {
  }

  function Min(a: int, b: int): int {
    if a <= b then a else b
  }

  // ----- the order in which ordered maps and sets visit their keys -----

  ghost predicate StrictlyAscending(keys: seq<int>) {
    forall i, j | 0 <= i < j < |keys| :: keys[i] < keys[j]
  }

  ghost predicate Lists(keys: seq<int>, s: set<int>) {
    StrictlyAscending(keys) && forall x :: x in keys <==> x in s
  }

  /** The keys of an ordered collection, ascending. */
  ghost function Ascending(s: set<int>): (keys: seq<int>)
    ensures Lists(keys, s)
    ensures forall i | 0 <= i < |keys| :: keys[i] in s
  {
    ListExists(s);
    var keys :| Lists(keys, s);
    assert forall i | 0 <= i < |keys| :: keys[i] in keys;
    keys
  }

  /** Visits the keys by taking out the least one until none is left. */
  method VisitOrder(s: set<int>) returns (keys: seq<int>)
    ensures keys == Ascending(s)
    ensures forall i | 0 <= i < |keys| :: keys[i] in s
  {
    keys := [];
    var rest := s;
    while rest != {}
      invariant rest <= s && StrictlyAscending(keys)
      invariant forall x :: x in keys <==> x in s && x !in rest
      invariant forall x, y | x in keys && y in rest :: x < y
      decreases rest
    {
      ghost var least := Least(rest);
      var next :| next in rest && forall x | x in rest :: next <= x;
      forall i | 0 <= i < |keys| ensures keys[i] < next {
        assert keys[i] in keys;
      }
      keys := keys + [next];
      rest := rest - {next};
    }
    SameList(keys, Ascending(s));
  }

  lemma {:induction false} ListExists(s: set<int>)
    ensures exists keys :: Lists(keys, s)
  {
    if s == {} {
      assert Lists([], s);
    } else {
      var least := Least(s);
      ListExists(s - {least});
      var rest :| Lists(rest, s - {least});
      forall i | 0 <= i < |rest| ensures least < rest[i] {
        assert rest[i] in rest;
      }
      assert Lists([least] + rest, s);
    }
  }

  lemma Least(s: set<int>) returns (least: int)
    requires s != {}
    ensures least in s && forall x | x in s :: least <= x
    decreases s
  {
    if forall x :: x !in s {
      assert false;
    }
    var x :| x in s;
    least := x;
    if s != {x} {
      var y := Least(s - {x});
      least := if x <= y then x else y;
      forall z | z in s ensures least <= z {
        assert z == x || z in s - {x};
      }
    }
  }

  lemma {:induction false} SameList(a: seq<int>, b: seq<int>)
    requires StrictlyAscending(a) && StrictlyAscending(b)
    requires forall x :: x in a <==> x in b
    ensures a == b
  {
    assert a != [] ==> a[0] in a && a[0] in b;
    assert b != [] ==> b[0] in b && b[0] in a;
    if a != [] {
      assert a[0] == b[0];
      assert a == [a[0]] + a[1..] && b == [b[0]] + b[1..];
      forall x ensures x in a[1..] <==> x in b[1..] {
        TailOf(a, x);
        TailOf(b, x);
      }
      SameList(a[1..], b[1..]);
    }
  }

  lemma TailOf(keys: seq<int>, x: int)
    requires keys != [] && StrictlyAscending(keys)
    ensures x in keys[1..] <==> x in keys && x != keys[0]
  {
    assert keys == [keys[0]] + keys[1..];
  }
}
