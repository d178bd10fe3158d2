/** The framed node tree shared by OTBM maps and items.otb, its stack parser and its written forms. */
module Framing {
  // A start byte opens a node, an end byte closes it, and an escape byte protects a reserved value.
  import opened Prelude

  const NODE_START: u8 := 0xfe
  const NODE_END: u8 := 0xff
  const NODE_ESCAPE: u8 := 0xfd

  datatype Node = Node(kind: u8, props: seq<u8>, children: seq<Node>)

  /** Hard caps of one instance of the parser. */
  datatype Limits = Limits(nodes: nat, depth: nat)

  const OTBM_LIMITS := Limits(12_000_000, 64)
  const OTB_LIMITS := Limits(300_000, 64)

  predicate Reserved(b: u8) {
    b == NODE_START || b == NODE_END || b == NODE_ESCAPE
  }

  // ----- the parser's state and its meaning -----

  /** The parser between two tokens: open nodes (innermost last), finished root, nodes entered. */
  datatype Scan = Scan(stack: seq<Node>, root: Option<Node>, count: nat)

  const START_OF_INPUT := Scan([], None, 0)

  function AddByte(node: Node, b: u8): Node {
    node.(props := node.props + [b])
  }

  function AddChild(node: Node, child: Node): Node {
    node.(children := node.children + [child])
  }

  /** Replaces the innermost open node. */
  function OnTop(st: Scan, top: Node): Scan
    requires st.stack != []
  {
    st.(stack := st.stack[..|st.stack| - 1] + [top])
  }

  function Top(st: Scan): Node
    requires st.stack != []
  {
    st.stack[|st.stack| - 1]
  }

  function Open(st: Scan, kind: u8, limits: Limits): Result<Scan> {
    if st.count + 1 > limits.nodes || |st.stack| >= limits.depth then Err
    else Ok(Scan(st.stack + [Node(kind, [], [])], st.root, st.count + 1))
  }

  function Close(st: Scan): Result<Scan> {
    if st.stack == [] then Err
    else
      var below := st.stack[..|st.stack| - 1];
      if below != [] then
        Ok(OnTop(st.(stack := below), AddChild(below[|below| - 1], Top(st))))
      else if st.root.Some? then Err
      else Ok(Scan([], Some(Top(st)), st.count))
  }

  function Data(st: Scan, b: u8): Result<Scan> {
    if st.stack == [] then Err else Ok(OnTop(st, AddByte(Top(st), b)))
  }

  /** The type byte after a start byte: its value and how many bytes it takes. */
  function KindAt(bytes: seq<u8>): (r: Result<(u8, nat)>)
    ensures r.Ok? ==> 1 <= r.value.1 <= |bytes|
  {
    if bytes == [] then Err
    else if bytes[0] == NODE_ESCAPE then
      if |bytes| < 2 then Err else Ok((bytes[1], 2))
    else if Reserved(bytes[0]) then Err
    else Ok((bytes[0], 1))
  }

  /** One token of `bytes` from state `st`: the state after it and the bytes it takes. */
  function Token(bytes: seq<u8>, st: Scan, limits: Limits): (r: Result<(Scan, nat)>)
    requires bytes != []
    ensures r.Ok? ==> 1 <= r.value.1 <= |bytes|
  {
    if bytes[0] == NODE_START then
      match KindAt(bytes[1..])
      case Err => Err
      case Ok((kind, used)) =>
        match Open(st, kind, limits) {
          case Err => Err
          case Ok(next) => Ok((next, 1 + used))
        }
    else if bytes[0] == NODE_END then
      match Close(st) {
        case Err => Err
        case Ok(next) => Ok((next, 1))
      }
    else if bytes[0] == NODE_ESCAPE then
      if |bytes| < 2 then Err else
      match Data(st, bytes[1]) {
        case Err => Err
        case Ok(next) => Ok((next, 2))
      }
    else
      match Data(st, bytes[0])
      case Err => Err
      case Ok(next) => Ok((next, 1))
  }

  function ScanAll(bytes: seq<u8>, st: Scan, limits: Limits): Result<Scan>
    decreases |bytes|
  {
    if bytes == [] then Ok(st)
    else
      match Token(bytes, st, limits)
      case Err => Err
      case Ok((next, used)) => ScanAll(bytes[used..], next, limits)
  }

  /** The whole parser as a function of its input. */
  function Parse(bytes: seq<u8>, limits: Limits): Result<Node> {
    match ScanAll(bytes, START_OF_INPUT, limits)
    case Err => Err
    case Ok(st) => if st.stack == [] && st.root.Some? then Ok(st.root.value) else Err
  }

  // ----- the loops of the source -----

  /** Reads a node type at `index`, moving the index past it. */
  method ReadFramedByte(bytes: seq<u8>, index: nat) returns (kind: Result<u8>, next: nat)
    requires index <= |bytes|
    ensures kind.Ok? <==> KindAt(bytes[index..]).Ok?
    ensures kind.Ok? ==> KindAt(bytes[index..]) == Ok((kind.value, next - index))
    ensures index <= next <= |bytes|
  {
    next := index;
    if next >= |bytes| {
      return Err, next;
    }
    var value := bytes[next];
    next := next + 1;
    if value == NODE_ESCAPE {
      if next >= |bytes| {
        return Err, next;
      }
      var escaped := bytes[next];
      next := next + 1;
      return Ok(escaped), next;
    } else if value == NODE_START || value == NODE_END {
      return Err, next;
    } else {
      return Ok(value), next;
    }
  }

  /** The scan after the token that ends at `next`, whatever the position it started from. */
  lemma ScanOn(bytes: seq<u8>, index: nat, next: nat, before: Scan, after: Scan, limits: Limits)
    requires index < next <= |bytes|
    requires Token(bytes[index..], before, limits) == Ok((after, next - index))
    ensures ScanAll(bytes[index..], before, limits) == ScanAll(bytes[next..], after, limits)
  {
    assert bytes[index..][next - index..] == bytes[next..];
  }

  /** One turn of the parser's loop: takes the token at `index` and moves past it. */
  method TakeToken(bytes: seq<u8>, index: nat, stack: seq<Node>, root: Option<Node>, count: nat, limits: Limits)
    returns (ok: bool, next: nat, stack': seq<Node>, root': Option<Node>, count': nat)
    requires index < |bytes|
    ensures ok <==> Token(bytes[index..], Scan(stack, root, count), limits).Ok?
    ensures ok ==> index < next <= |bytes|
    ensures ok ==> Token(bytes[index..], Scan(stack, root, count), limits) == Ok((Scan(stack', root', count'), next - index))
  {
    ok, next, stack', root', count' := false, index + 1, stack, root, count;
    if bytes[index] == NODE_START {
      assert bytes[index..][1..] == bytes[index + 1..];
      var kind, past := ReadFramedByte(bytes, index + 1);
      next, count' := past, count + 1;
      if kind.Err? || count' > limits.nodes || |stack| >= limits.depth {
        return;
      }
      stack' := stack + [Node(kind.value, [], [])];
    } else if bytes[index] == NODE_END {
      if stack == [] {
        return;
      }
      var completed := stack[|stack| - 1];
      stack' := stack[..|stack| - 1];
      if stack' != [] {
        stack' := stack'[..|stack'| - 1] + [AddChild(stack'[|stack'| - 1], completed)];
      } else if root.Some? {
        return;
      } else {
        root' := Some(completed);
      }
    } else {
      if bytes[index] == NODE_ESCAPE {
        next := index + 2;
        if next > |bytes| {
          return;
        }
      }
      if stack == [] {
        return;
      }
      stack' := stack[..|stack| - 1] + [AddByte(stack[|stack| - 1], bytes[next - 1])];
    }
    ok := true;
  }

  /** The explicit-stack parser. */
  method ParseTree(bytes: seq<u8>, limits: Limits) returns (r: Result<Node>)
    ensures r == Parse(bytes, limits)
  {
    var index := 0;
    var stack: seq<Node> := [];
    var root: Option<Node> := None;
    var count := 0;
    assert bytes[0..] == bytes;
    while index < |bytes|
      invariant index <= |bytes|
      invariant ScanAll(bytes[index..], Scan(stack, root, count), limits)
             == ScanAll(bytes, START_OF_INPUT, limits)
    {
      var ok, next, stack', root', count' := TakeToken(bytes, index, stack, root, count, limits);
      if !ok {
        return Err;
      }
      ScanOn(bytes, index, next, Scan(stack, root, count), Scan(stack', root', count'), limits);
      index, stack, root, count := next, stack', root', count';
    }
    assert bytes[index..] == [];
    return if stack == [] && root.Some? then Ok(root.value) else Err;
  }

  // ----- the concrete syntax of the format, independent of the parser -----

  /** One written node: its type byte (escaped or not) and what stands between start and end. */
  datatype Syntax = Syntax(kind: u8, escaped: bool, pieces: seq<Piece>)
  datatype Piece = Byte(value: u8, escaped: bool) | Child(node: Syntax)

  function WriteByte(value: u8, escaped: bool): seq<u8> {
    if escaped then [NODE_ESCAPE, value] else [value]
  }

  function Header(kind: u8, escaped: bool): seq<u8> {
    [NODE_START] + WriteByte(kind, escaped)
  }

  /** The bytes of a written node. */
  function Write(s: Syntax): seq<u8>
    decreases s
  {
    Header(s.kind, s.escaped) + WritePieces(s.pieces) + [NODE_END]
  }

  function WritePieces(ps: seq<Piece>): seq<u8>
    decreases ps
  {
    if ps == [] then [] else WritePiece(ps[0]) + WritePieces(ps[1..])
  }

  function WritePiece(p: Piece): seq<u8>
    decreases p
  {
    match p
    case Byte(value, escaped) => WriteByte(value, escaped)
    case Child(node) => Write(node)
  }

  /** Only reserved bytes need their escape; any byte may carry one. */
  predicate WellWritten(s: Syntax)
    decreases s
  {
    (Reserved(s.kind) ==> s.escaped) && PiecesWellWritten(s.pieces)
  }

  predicate PiecesWellWritten(ps: seq<Piece>)
    decreases ps
  {
    ps == [] || (PieceWellWritten(ps[0]) && PiecesWellWritten(ps[1..]))
  }

  predicate PieceWellWritten(p: Piece)
    decreases p
  {
    match p
    case Byte(value, escaped) => Reserved(value) ==> escaped
    case Child(node) => WellWritten(node)
  }

  /** The tree a written node stands for: properties and children are gathered separately. */
  function Meaning(s: Syntax): Node
    decreases s
  {
    Node(s.kind, PropsOf(s.pieces), ChildrenOf(s.pieces))
  }

  function PropsOf(ps: seq<Piece>): seq<u8> {
    if ps == [] then []
    else PropOf(ps[0]) + PropsOf(ps[1..])
  }

  function PropOf(p: Piece): seq<u8> {
    if p.Byte? then [p.value] else []
  }

  function ChildrenOf(ps: seq<Piece>): seq<Node>
    decreases ps
  {
    if ps == [] then []
    else ChildOf(ps[0]) + ChildrenOf(ps[1..])
  }

  function ChildOf(p: Piece): seq<Node>
    decreases p
  {
    match p
    case Byte(_, _) => []
    case Child(node) => [Meaning(node)]
  }

  /** Number of nodes of a tree, and of a list of trees. */
  function Size(t: Node): nat
    decreases t
  {
    1 + SizeAll(t.children)
  }

  function SizeAll(ts: seq<Node>): nat
    decreases ts
  {
    if ts == [] then 0 else Size(ts[0]) + SizeAll(ts[1..])
  }

  /** Nodes on the longest path from the root. */
  function Height(t: Node): nat
    decreases t
  {
    1 + HeightAll(t.children)
  }

  function HeightAll(ts: seq<Node>): nat
    decreases ts
  {
    if ts == [] then 0
    else if Height(ts[0]) >= HeightAll(ts[1..]) then Height(ts[0]) else HeightAll(ts[1..])
  }

  predicate WithinLimits(t: Node, limits: Limits) {
    Size(t) <= limits.nodes && Height(t) <= limits.depth
  }

  // ----- forward: the parser accepts everything that can be written, within the limits -----

  predicate InBounds(st: Scan, limits: Limits) {
    |st.stack| <= limits.depth && st.count <= limits.nodes
  }

  /** Feeding pieces to an open node: either they all fit and land in it, or the parse fails. */
  function Feed(st: Scan, ps: seq<Piece>, limits: Limits): Result<Scan>
    requires st.stack != []
  {
    Land(st, Absorb(Top(st), ps), HeightAll(ChildrenOf(ps)), SizeAll(ChildrenOf(ps)), limits)
  }

  /** The innermost node becomes `top` after `size` more nodes reaching `height` levels deeper. */
  function Land(st: Scan, top: Node, height: nat, size: nat, limits: Limits): Result<Scan>
    requires st.stack != []
  {
    if |st.stack| + height <= limits.depth && st.count + size <= limits.nodes
    then Ok(OnTop(st, top).(count := st.count + size))
    else Err
  }

  lemma LandInTurn(st: Scan, top1: Node, h1: nat, n1: nat, top2: Node, h2: nat, n2: nat, limits: Limits)
    requires st.stack != []
    ensures Land(st, top2, if h1 >= h2 then h1 else h2, n1 + n2, limits)
         == match Land(st, top1, h1, n1, limits) case Err => Err case Ok(next) => Land(next, top2, h2, n2, limits)
  {
    var next := OnTop(st, top1);
    assert next.stack[..|next.stack| - 1] == st.stack[..|st.stack| - 1];
  }

  function Absorb(top: Node, ps: seq<Piece>): Node {
    Node(top.kind, top.props + PropsOf(ps), top.children + ChildrenOf(ps))
  }

  lemma AbsorbInTurn(top: Node, ps: seq<Piece>)
    requires ps != []
    ensures Absorb(top, ps) == Absorb(Absorb(top, [ps[0]]), ps[1..])
    ensures ChildrenOf(ps) == ChildrenOf([ps[0]]) + ChildrenOf(ps[1..])
  {
    OnePiece(ps[0]);
    Assoc(top.props, PropsOf([ps[0]]), PropsOf(ps[1..]));
    Assoc(top.children, ChildrenOf([ps[0]]), ChildrenOf(ps[1..]));
  }

  lemma {:induction false} ScanBytes(value: u8, escaped: bool, rest: seq<u8>, st: Scan, limits: Limits)
    requires Reserved(value) ==> escaped
    requires st.stack != []
    ensures ScanAll(WriteByte(value, escaped) + rest, st, limits)
         == ScanAll(rest, OnTop(st, AddByte(Top(st), value)), limits)
  {
    var bytes := WriteByte(value, escaped) + rest;
    assert bytes[|WriteByte(value, escaped)|..] == rest;
  }

  lemma {:induction false} ScanHeader(kind: u8, escaped: bool, rest: seq<u8>, st: Scan, limits: Limits)
    requires Reserved(kind) ==> escaped
    ensures ScanAll(Header(kind, escaped) + rest, st, limits)
         == match Open(st, kind, limits) case Err => Err case Ok(next) => ScanAll(rest, next, limits)
  {
    var bytes := Header(kind, escaped) + rest;
    assert bytes[1..] == WriteByte(kind, escaped) + rest;
    assert bytes[|Header(kind, escaped)|..] == rest;
  }

  /** The state after a complete written node. */
  function After(st: Scan, s: Syntax, limits: Limits): Result<Scan> {
    Attach(st, Meaning(s), Height(Meaning(s)), Size(Meaning(s)), limits)
  }

  function Attach(st: Scan, node: Node, height: nat, size: nat, limits: Limits): Result<Scan> {
    if |st.stack| + height <= limits.depth && st.count + size <= limits.nodes then
      var counted := st.(count := st.count + size);
      if st.stack != [] then Ok(OnTop(counted, AddChild(Top(st), node)))
      else if st.root.Some? then Err
      else Ok(counted.(root := Some(node)))
    else Err
  }

  lemma {:induction false} ScanSyntax(s: Syntax, rest: seq<u8>, st: Scan, limits: Limits)
    requires WellWritten(s) && InBounds(st, limits)
    ensures ScanAll(Write(s) + rest, st, limits)
         == match After(st, s, limits) case Err => Err case Ok(next) => ScanAll(rest, next, limits)
    decreases s
  {
    var body := WritePieces(s.pieces) + ([NODE_END] + rest);
    assert Write(s) + rest == Header(s.kind, s.escaped) + body by {
      var header := Header(s.kind, s.escaped) + WritePieces(s.pieces);
      Assoc(header, [NODE_END], rest);
      Assoc(Header(s.kind, s.escaped), WritePieces(s.pieces), [NODE_END] + rest);
    }
    ScanHeader(s.kind, s.escaped, body, st, limits);
    if Open(st, s.kind, limits).Ok? {
      var inside := Open(st, s.kind, limits).value;
      ScanPieces(s.pieces, [NODE_END] + rest, inside, limits);
      if Feed(inside, s.pieces, limits).Ok? {
        ScanEnd(Feed(inside, s.pieces, limits).value, rest, limits);
        OpenFeedClose(st, s, limits);
      }
    }
  }

  lemma {:induction false} ScanEnd(st: Scan, rest: seq<u8>, limits: Limits)
    ensures ScanAll([NODE_END] + rest, st, limits)
         == match Close(st) case Err => Err case Ok(next) => ScanAll(rest, next, limits)
  {
    assert ([NODE_END] + rest)[1..] == rest;
  }

  lemma OpenFeedClose(st: Scan, s: Syntax, limits: Limits)
    requires Open(st, s.kind, limits).Ok?
    requires Feed(Open(st, s.kind, limits).value, s.pieces, limits).Ok?
    ensures Close(Feed(Open(st, s.kind, limits).value, s.pieces, limits).value) == After(st, s, limits)
  {
    var inside := Open(st, s.kind, limits).value;
    assert [] + PropsOf(s.pieces) == PropsOf(s.pieces) && [] + ChildrenOf(s.pieces) == ChildrenOf(s.pieces);
    assert Absorb(Top(inside), s.pieces) == Meaning(s);
    OpenLandClose(st, Meaning(s), HeightAll(ChildrenOf(s.pieces)), SizeAll(ChildrenOf(s.pieces)), limits);
  }

  lemma OpenLandClose(st: Scan, node: Node, height: nat, size: nat, limits: Limits)
    requires Open(st, node.kind, limits).Ok?
    requires Land(Open(st, node.kind, limits).value, node, height, size, limits).Ok?
    ensures Close(Land(Open(st, node.kind, limits).value, node, height, size, limits).value)
         == Attach(st, node, 1 + height, 1 + size, limits)
  {
    var inside := Open(st, node.kind, limits).value;
    var landed := Land(inside, node, height, size, limits).value;
    assert inside.stack[..|inside.stack| - 1] == st.stack;
    assert landed.stack[..|landed.stack| - 1] == st.stack;
  }

  lemma {:induction false} ScanPieces(ps: seq<Piece>, rest: seq<u8>, st: Scan, limits: Limits)
    requires PiecesWellWritten(ps)
    requires st.stack != [] && InBounds(st, limits)
    ensures ScanAll(WritePieces(ps) + rest, st, limits)
         == match Feed(st, ps, limits) case Err => Err case Ok(next) => ScanAll(rest, next, limits)
    decreases ps
  {
    if ps == [] {
      assert WritePieces(ps) + rest == rest;
      var top := Top(st);
      assert top.props + [] == top.props && top.children + [] == top.children;
      assert OnTop(st, top) == st;
    } else {
      var tail := WritePieces(ps[1..]) + rest;
      Assoc(WritePiece(ps[0]), WritePieces(ps[1..]), rest);
      ScanPiece(ps[0], tail, st, limits);
      if Feed(st, [ps[0]], limits).Ok? {
        ScanPieces(ps[1..], rest, Feed(st, [ps[0]], limits).value, limits);
      }
      FeedInTurn(st, ps, limits);
    }
  }

  lemma {:induction false} ScanPiece(p: Piece, rest: seq<u8>, st: Scan, limits: Limits)
    requires PieceWellWritten(p)
    requires st.stack != [] && InBounds(st, limits)
    ensures ScanAll(WritePiece(p) + rest, st, limits)
         == match Feed(st, [p], limits) case Err => Err case Ok(next) => ScanAll(rest, next, limits)
    decreases p
  {
    FeedOne(st, p, limits);
    match p
    case Byte(value, escaped) => ScanBytes(value, escaped, rest, st, limits);
    case Child(node) => ScanSyntax(node, rest, st, limits);
  }

  lemma FeedOne(st: Scan, p: Piece, limits: Limits)
    requires st.stack != [] && InBounds(st, limits)
    ensures Feed(st, [p], limits)
         == match p case Byte(value, _) => Ok(OnTop(st, AddByte(Top(st), value))) case Child(node) => After(st, node, limits)
  {
    OnePiece(p);
    if p.Child? {
      var t := Meaning(p.node);
      assert SizeAll([t]) == Size(t) && HeightAll([t]) == Height(t);
    }
    assert Top(st).props + [] == Top(st).props && Top(st).children + [] == Top(st).children;
  }

  lemma OnePiece(p: Piece)
    ensures ChildrenOf([p]) == ChildOf(p)
    ensures PropsOf([p]) == PropOf(p)
  {
    assert [p][1..] == [];
    assert PropOf(p) + [] == PropOf(p);
    assert ChildOf(p) + [] == ChildOf(p);
  }

  lemma FeedInTurn(st: Scan, ps: seq<Piece>, limits: Limits)
    requires st.stack != [] && ps != []
    ensures Feed(st, ps, limits)
         == match Feed(st, [ps[0]], limits) case Err => Err case Ok(next) => Feed(next, ps[1..], limits)
  {
    var first, rest := ChildrenOf([ps[0]]), ChildrenOf(ps[1..]);
    var top1, top2 := Absorb(Top(st), [ps[0]]), Absorb(Top(st), ps);
    AbsorbInTurn(Top(st), ps);
    SizeAllConcat(first, rest);
    LandInTurn(st, top1, HeightAll(first), SizeAll(first), top2, HeightAll(rest), SizeAll(rest), limits);
    if Feed(st, [ps[0]], limits).Ok? {
      var next := Feed(st, [ps[0]], limits).value;
      assert Top(next) == top1;
      assert Feed(next, ps[1..], limits) == Land(next, top2, HeightAll(rest), SizeAll(rest), limits);
    }
  }

  lemma {:induction false} SizeAllConcat(xs: seq<Node>, ys: seq<Node>)
    ensures SizeAll(xs + ys) == SizeAll(xs) + SizeAll(ys)
    ensures HeightAll(xs + ys) == if HeightAll(xs) >= HeightAll(ys) then HeightAll(xs) else HeightAll(ys)
  {
    if xs == [] {
      assert xs + ys == ys;
    } else {
      SizeAllConcat(xs[1..], ys);
      assert (xs + ys)[1..] == xs[1..] + ys;
    }
  }

  // ----- backward: whatever the parser accepts was written -----

  lemma {:induction false} ConcatWrites(ps: seq<Piece>, qs: seq<Piece>)
    ensures WritePieces(ps + qs) == WritePieces(ps) + WritePieces(qs)
    ensures PiecesWellWritten(ps + qs) <==> PiecesWellWritten(ps) && PiecesWellWritten(qs)
  {
    if ps == [] {
      assert ps + qs == qs;
    } else {
      ConcatWrites(ps[1..], qs);
      assert (ps + qs)[1..] == ps[1..] + qs;
      Assoc(WritePiece(ps[0]), WritePieces(ps[1..]), WritePieces(qs));
    }
  }

  lemma {:induction false} ConcatMeans(ps: seq<Piece>, qs: seq<Piece>)
    ensures PropsOf(ps + qs) == PropsOf(ps) + PropsOf(qs)
    ensures ChildrenOf(ps + qs) == ChildrenOf(ps) + ChildrenOf(qs)
  {
    if ps == [] {
      assert ps + qs == qs;
    } else {
      ConcatMeans(ps[1..], qs);
      assert (ps + qs)[1..] == ps[1..] + qs;
      Assoc(PropOf(ps[0]), PropsOf(ps[1..]), PropsOf(qs));
      Assoc(ChildOf(ps[0]), ChildrenOf(ps[1..]), ChildrenOf(qs));
    }
  }

  lemma AppendPiece(ps: seq<Piece>, p: Piece)
    ensures WritePieces(ps + [p]) == WritePieces(ps) + WritePiece(p)
    ensures PropsOf(ps + [p]) == PropsOf(ps) + PropOf(p)
    ensures ChildrenOf(ps + [p]) == ChildrenOf(ps) + ChildOf(p)
    ensures PiecesWellWritten(ps + [p]) <==> PiecesWellWritten(ps) && PieceWellWritten(p)
  {
    ConcatWrites(ps, [p]);
    ConcatMeans(ps, [p]);
    OnePiece(p);
    assert WritePieces([p]) == WritePiece(p) + [];
  }

  /** The bytes of nodes that are open, outermost first: no end byte written yet. */
  function WriteOpen(open: seq<Syntax>): seq<u8> {
    if open == [] then []
    else
      var last := open[|open| - 1];
      WriteOpen(open[..|open| - 1]) + Header(last.kind, last.escaped) + WritePieces(last.pieces)
  }

  predicate Describes(open: seq<Syntax>, stack: seq<Node>) {
    |open| == |stack| && forall i | 0 <= i < |open| :: WellWritten(open[i]) && Meaning(open[i]) == stack[i]
  }

  function GrowLast(open: seq<Syntax>, p: Piece): seq<Syntax>
    requires open != []
  {
    var last := open[|open| - 1];
    open[..|open| - 1] + [last.(pieces := last.pieces + [p])]
  }

  lemma GrowLastWrites(open: seq<Syntax>, p: Piece)
    requires open != []
    ensures WriteOpen(GrowLast(open, p)) == WriteOpen(open) + WritePiece(p)
  {
    var last, below := open[|open| - 1], open[..|open| - 1];
    AppendPiece(last.pieces, p);
    assert GrowLast(open, p)[..|open| - 1] == below;
    Assoc(WriteOpen(below) + Header(last.kind, last.escaped), WritePieces(last.pieces), WritePiece(p));
  }

  lemma GrowLastDescribes(open: seq<Syntax>, stack: seq<Node>, p: Piece)
    requires open != [] && Describes(open, stack) && PieceWellWritten(p)
    ensures var top := stack[|stack| - 1];
      Describes(GrowLast(open, p),
        stack[..|stack| - 1]
          + [Node(top.kind, top.props + PropOf(p), top.children + ChildOf(p))])
  {
    AppendPiece(open[|open| - 1].pieces, p);
  }

  /** Once the root is closed nothing may follow it. */
  lemma {:induction false} NothingAfterRoot(bytes: seq<u8>, st: Scan, limits: Limits)
    requires st.root.Some?
    requires ScanAll(bytes, st, limits).Ok? && ScanAll(bytes, st, limits).value.stack == []
    ensures bytes == []
    ensures st.stack == []
    decreases |bytes|
  {
    if bytes != [] {
      var (next, used) := Token(bytes, st, limits).value;
      NothingAfterRoot(bytes[used..], next, limits);
    }
  }

  lemma OpeningWrites(open: seq<Syntax>, kind: u8, escaped: bool)
    ensures WriteOpen(open + [Syntax(kind, escaped, [])]) == WriteOpen(open) + Header(kind, escaped)
  {
    var further := open + [Syntax(kind, escaped, [])];
    assert further[..|open|] == open;
    assert WriteOpen(further) == WriteOpen(open) + Header(kind, escaped) + [];
  }

  lemma ClosingWrites(below: seq<Syntax>, last: Syntax)
    requires below != []
    ensures WriteOpen(GrowLast(below, Child(last))) == WriteOpen(below + [last]) + [NODE_END]
  {
    GrowLastWrites(below, Child(last));
    assert (below + [last])[..|below|] == below;
    var header, body := Header(last.kind, last.escaped), WritePieces(last.pieces);
    Assoc(WriteOpen(below), header, body);
    Assoc(WriteOpen(below), header + body, [NODE_END]);
  }

  /** A token read from `bytes` extends what has been written of the open nodes. */
  lemma UnreadToken(bytes: seq<u8>, st: Scan, open: seq<Syntax>, limits: Limits) returns (further: seq<Syntax>)
    requires Describes(open, st.stack)
    requires bytes != [] && Token(bytes, st, limits).Ok?
    requires Token(bytes, st, limits).value.0.stack != []
    ensures Describes(further, Token(bytes, st, limits).value.0.stack)
    ensures WriteOpen(further) == WriteOpen(open) + bytes[..Token(bytes, st, limits).value.1]
  {
    if bytes[0] == NODE_START {
      var (kind, taken) := KindAt(bytes[1..]).value;
      further := open + [Syntax(kind, taken == 2, [])];
      UnreadStart(bytes, st, open, kind, taken);
    } else if bytes[0] == NODE_END {
      further := GrowLast(open[..|open| - 1], Child(open[|open| - 1]));
      UnreadEnd(st, open);
      assert bytes[..1] == [NODE_END];
    } else {
      var escaped := bytes[0] == NODE_ESCAPE;
      var piece := Byte(if escaped then bytes[1] else bytes[0], escaped);
      further := GrowLast(open, piece);
      UnreadData(st, open, piece);
      assert bytes[..Token(bytes, st, limits).value.1] == WritePiece(piece);
    }
  }

  lemma UnreadData(st: Scan, open: seq<Syntax>, piece: Piece)
    requires open != [] && Describes(open, st.stack) && piece.Byte? && PieceWellWritten(piece)
    ensures Describes(GrowLast(open, piece), OnTop(st, AddByte(Top(st), piece.value)).stack)
    ensures WriteOpen(GrowLast(open, piece)) == WriteOpen(open) + WritePiece(piece)
  {
    GrowLastDescribes(open, st.stack, piece);
    GrowLastWrites(open, piece);
    assert Top(st).children + [] == Top(st).children;
  }

  lemma UnreadStart(bytes: seq<u8>, st: Scan, open: seq<Syntax>, kind: u8, taken: nat)
    requires Describes(open, st.stack)
    requires bytes != [] && bytes[0] == NODE_START && KindAt(bytes[1..]) == Ok((kind, taken))
    ensures Describes(open + [Syntax(kind, taken == 2, [])], st.stack + [Node(kind, [], [])])
    ensures WriteOpen(open + [Syntax(kind, taken == 2, [])]) == WriteOpen(open) + bytes[..1 + taken]
  {
    assert Meaning(Syntax(kind, taken == 2, [])) == Node(kind, [], []) && PiecesWellWritten([]);
    OpeningWrites(open, kind, taken == 2);
    assert bytes[..1 + taken] == Header(kind, taken == 2);
  }

  lemma UnreadEnd(st: Scan, open: seq<Syntax>)
    requires Describes(open, st.stack) && |open| >= 2
    ensures Describes(GrowLast(open[..|open| - 1], Child(open[|open| - 1])), Close(st).value.stack)
    ensures WriteOpen(GrowLast(open[..|open| - 1], Child(open[|open| - 1]))) == WriteOpen(open) + [NODE_END]
  {
    var last, below, parents := open[|open| - 1], open[..|open| - 1], st.stack[..|open| - 1];
    GrowLastDescribes(below, parents, Child(last));
    assert parents[|parents| - 1].props + [] == parents[|parents| - 1].props;
    ClosingWrites(below, last);
    assert below + [last] == open;
  }

  lemma LastOpenIsWhole(open: seq<Syntax>)
    requires |open| == 1
    ensures WriteOpen(open) + [NODE_END] == Write(open[0])
  {
    assert open[..0] == [];
    var header := Header(open[0].kind, open[0].escaped);
    assert [] + header == header;
  }

  lemma {:induction false} Unscan(bytes: seq<u8>, st: Scan, open: seq<Syntax>, limits: Limits) returns (s: Syntax)
    requires Describes(open, st.stack) && st.root.None?
    requires ScanAll(bytes, st, limits).Ok?
    requires ScanAll(bytes, st, limits).value.stack == [] && ScanAll(bytes, st, limits).value.root.Some?
    ensures WellWritten(s)
    ensures Some(Meaning(s)) == ScanAll(bytes, st, limits).value.root
    ensures Write(s) == WriteOpen(open) + bytes
    decreases |bytes|
  {
    var (next, used) := Token(bytes, st, limits).value;
    var rest := bytes[used..];
    assert bytes == bytes[..used] + rest;
    if next.root.Some? {
      NothingAfterRoot(rest, next, limits);
      s := open[0];
      assert bytes == [NODE_END];
      LastOpenIsWhole(open);
    } else {
      var further := UnreadToken(bytes, st, open, limits);
      s := Unscan(rest, next, further, limits);
      Assoc(WriteOpen(open), bytes[..used], rest);
    }
  }

  // ----- the printer -----

  /** Property bytes with an escape before each reserved one. */
  function EscapeAll(props: seq<u8>): seq<u8> {
    if props == [] then [] else WriteByte(props[0], Reserved(props[0])) + EscapeAll(props[1..])
  }

  /** Prints a tree: properties first, then the children. A reserved kind gets its escape too. */
  function Frame(t: Node): seq<u8>
    decreases t
  {
    Header(t.kind, Reserved(t.kind)) + (EscapeAll(t.props) + FrameAll(t.children)) + [NODE_END]
  }

  function FrameAll(ts: seq<Node>): seq<u8>
    decreases ts
  {
    if ts == [] then [] else Frame(ts[0]) + FrameAll(ts[1..])
  }

  lemma {:induction false} EscapedBytes(props: seq<u8>) returns (ps: seq<Piece>)
    ensures PiecesWellWritten(ps) && WritePieces(ps) == EscapeAll(props)
    ensures PropsOf(ps) == props && ChildrenOf(ps) == []
  {
    if props == [] {
      ps := [];
    } else {
      var tail := EscapedBytes(props[1..]);
      ps := [Byte(props[0], Reserved(props[0]))] + tail;
      assert ps[1..] == tail;
    }
  }

  lemma {:induction false} FrameFromPieces(t: Node, data: seq<Piece>, nodes: seq<Piece>)
    requires PiecesWellWritten(data) && WritePieces(data) == EscapeAll(t.props)
    requires PropsOf(data) == t.props && ChildrenOf(data) == []
    requires PiecesWellWritten(nodes) && WritePieces(nodes) == FrameAll(t.children)
    requires PropsOf(nodes) == [] && ChildrenOf(nodes) == t.children
    ensures var s := Syntax(t.kind, Reserved(t.kind), data + nodes);
      WellWritten(s) && Write(s) == Frame(t) && Meaning(s) == t
  {
    ConcatWrites(data, nodes);
    ConcatMeans(data, nodes);
    assert t.props + [] == t.props && [] + t.children == t.children;
  }

  /** The printed form is one of the written forms of the tree. */
  lemma {:induction false} FrameIsWritten(t: Node) returns (s: Syntax)
    ensures WellWritten(s) && Write(s) == Frame(t) && Meaning(s) == t
    decreases t
  {
    var data := EscapedBytes(t.props);
    var nodes := FrameAllIsWritten(t.children);
    FrameFromPieces(t, data, nodes);
    s := Syntax(t.kind, Reserved(t.kind), data + nodes);
  }

  lemma {:induction false} FrameAllIsWritten(ts: seq<Node>) returns (ps: seq<Piece>)
    ensures PiecesWellWritten(ps) && WritePieces(ps) == FrameAll(ts)
    ensures PropsOf(ps) == [] && ChildrenOf(ps) == ts
    decreases ts
  {
    if ts == [] {
      ps := [];
    } else {
      var s := FrameIsWritten(ts[0]);
      var tail := FrameAllIsWritten(ts[1..]);
      ps := [Child(s)] + tail;
      assert ps[1..] == tail;
    }
  }

  lemma {:induction false} NoShorterPieces(ps: seq<Piece>)
    requires PiecesWellWritten(ps)
    ensures |WritePieces(ps)| >= |EscapeAll(PropsOf(ps))| + |FrameAll(ChildrenOf(ps))|
    decreases ps
  {
    if ps != [] {
      NoShorterPieces(ps[1..]);
      NoShorterPiece(ps[0]);
      var props, children := PropsOf(ps[1..]), ChildrenOf(ps[1..]);
      if ps[0].Child? {
        assert ([Meaning(ps[0].node)] + children)[1..] == children;
        assert [] + props == props;
      } else {
        assert ([ps[0].value] + props)[1..] == props;
        assert [] + children == children;
      }
    }
  }

  lemma {:induction false} NoShorterPiece(p: Piece)
    requires PieceWellWritten(p)
    ensures p.Child? ==> |Frame(Meaning(p.node))| <= |WritePiece(p)|
    decreases p
  {
    if p.Child? {
      NoShorterForm(p.node);
    }
  }

  // ----- main results -----

  /**
   * The parser decides exactly the written trees within its limits: it answers `t` if and only if
   * the input is some written form of `t`, however properties and children are interleaved and
   * whichever bytes carry an unneeded escape.
   */
  lemma ParsesExactlyTheWrittenTrees(bytes: seq<u8>, t: Node, limits: Limits)
    ensures Parse(bytes, limits) == Ok(t)
       <==> WithinLimits(t, limits) && exists s :: WellWritten(s) && Write(s) == bytes && Meaning(s) == t
  {
    if Parse(bytes, limits) == Ok(t) {
      var s := Unscan(bytes, START_OF_INPUT, [], limits);
      assert WellWritten(s) && Write(s) == bytes && Meaning(s) == t;
      ParseWritten(s, limits);
    }
    forall s | WellWritten(s) && Write(s) == bytes && Meaning(s) == t && WithinLimits(t, limits)
      ensures Parse(bytes, limits) == Ok(t)
    {
      ParseWritten(s, limits);
    }
  }

  lemma ParseWritten(s: Syntax, limits: Limits)
    requires WellWritten(s)
    ensures Parse(Write(s), limits) == if WithinLimits(Meaning(s), limits) then Ok(Meaning(s)) else Err
  {
    ScanSyntax(s, [], START_OF_INPUT, limits);
    assert Write(s) + [] == Write(s);
  }

  /** The markers at work: two escaped properties and two children, byte by byte and in order. */
  lemma BytesSpellTrees(kind: u8, a: u8, b: u8, c: u8, d: u8, limits: Limits)
    requires kind < 0xFD && c < 0xFD && d < 0xFD && limits.nodes >= 3 && limits.depth >= 2
    ensures Parse([0xFE, kind, 0xFD, a, 0xFD, b, 0xFE, c, 0xFF, 0xFE, d, 0xFF, 0xFF], limits)
         == Ok(Node(kind, [a, b], [Node(c, [], []), Node(d, [], [])]))
  {
    var first, second := Syntax(c, false, []), Syntax(d, false, []);
    LeafMeans(c);
    LeafMeans(d);
    var one := [Child(second)] + [];
    InFront(Child(second), []);
    var two := [Child(first)] + one;
    InFront(Child(first), one);
    var three := [Byte(b, true)] + two;
    InFront(Byte(b, true), two);
    var four := [Byte(a, true)] + three;
    InFront(Byte(a, true), three);
    var s := Syntax(kind, false, four);
    assert WritePieces(four) == [0xFD, a, 0xFD, b, 0xFE, c, 0xFF, 0xFE, d, 0xFF];
    assert Write(s) == [0xFE, kind, 0xFD, a, 0xFD, b, 0xFE, c, 0xFF, 0xFE, d, 0xFF, 0xFF];
    assert Meaning(s) == Node(kind, [a, b], [Node(c, [], []), Node(d, [], [])]);
    SmallTree(Meaning(s), Node(c, [], []), Node(d, [], []), limits);
    ParseWritten(s, limits);
  }

  lemma LeafMeans(kind: u8)
    requires kind < 0xFD
    ensures var s := Syntax(kind, false, []);
      WellWritten(s) && Write(s) == [0xFE, kind, 0xFF] && Meaning(s) == Node(kind, [], [])
  {
  }

  lemma InFront(p: Piece, ps: seq<Piece>)
    ensures PiecesWellWritten([p] + ps) <==> PieceWellWritten(p) && PiecesWellWritten(ps)
    ensures WritePieces([p] + ps) == WritePiece(p) + WritePieces(ps)
    ensures PropsOf([p] + ps) == PropOf(p) + PropsOf(ps) && ChildrenOf([p] + ps) == ChildOf(p) + ChildrenOf(ps)
  {
    assert ([p] + ps)[1..] == ps;
  }

  lemma SmallTree(t: Node, first: Node, second: Node, limits: Limits)
    requires t.children == [first, second] && first.children == [] && second.children == []
    requires limits.nodes >= 3 && limits.depth >= 2
    ensures WithinLimits(t, limits)
  {
    MoreNodes(second, []);
    MoreNodes(first, [second] + []);
    assert t.children == [first] + ([second] + []);
  }

  lemma MoreNodes(t: Node, ts: seq<Node>)
    ensures SizeAll([t] + ts) == Size(t) + SizeAll(ts)
    ensures HeightAll([t] + ts) == if Height(t) >= HeightAll(ts) then Height(t) else HeightAll(ts)
  {
    assert ([t] + ts)[1..] == ts;
  }

  /** Round trip: printing and parsing returns the tree, and fails exactly beyond the limits. */
  lemma FramingRoundTrip(t: Node, limits: Limits)
    ensures Parse(Frame(t), limits) == if WithinLimits(t, limits) then Ok(t) else Err
  {
    var s := FrameIsWritten(t);
    ParseWritten(s, limits);
  }

  /** Every accepted input has the printed form as its normal form. */
  lemma FramingNormalForm(bytes: seq<u8>, limits: Limits)
    requires Parse(bytes, limits).Ok?
    ensures Parse(Frame(Parse(bytes, limits).value), limits) == Parse(bytes, limits)
    ensures |Frame(Parse(bytes, limits).value)| <= |bytes|
  {
    var t := Parse(bytes, limits).value;
    ParsesExactlyTheWrittenTrees(bytes, t, limits);
    FramingRoundTrip(t, limits);
    var s :| WellWritten(s) && Write(s) == bytes && Meaning(s) == t;
    NoShorterForm(s);
  }

  /** No way of writing a tree is shorter than the printed one. */
  lemma {:induction false} NoShorterForm(s: Syntax)
    requires WellWritten(s)
    ensures |Frame(Meaning(s))| <= |Write(s)|
    decreases s
  {
    NoShorterPieces(s.pieces);
  }

  /** No accepted input is a strict prefix of another accepted input. */
  lemma FramingIsPrefixFree(bytes: seq<u8>, more: seq<u8>, limits: Limits)
    requires Parse(bytes, limits).Ok? && Parse(bytes + more, limits).Ok?
    ensures more == []
  {
    var s := Unscan(bytes, START_OF_INPUT, [], limits);
    assert Write(s) == bytes;
    ParseWritten(s, limits);
    ScanSyntax(s, more, START_OF_INPUT, limits);
    NothingAfterRoot(more, After(START_OF_INPUT, s, limits).value, limits);
  }
}
