/** Pattern blocks: relocatable arrays of nodes, and the operations that build
    them out of smaller blocks.  Offsets count descriptors from the title; the
    node at offset o has its function at o+1, its connector at o+2, its
    heuristic at o+3 and, when the function's size field is 3, an argument at
    o+4. */
module PatternCode {
  import opened PatternAlgebra

  datatype Op =
    | CHR | LNTH | POSI | RPSI | TB | RTB | ANYC | NNYC | SPNC | BRKC
    | SCOK | FARB | BAL | BALF | ARBN | ARBF | EARB | ONAR | ONRF | NME | ENME

  datatype Arg = Str(s: string) | Int(n: int)

  /** A descriptor of a pattern block.  In a connector `a` is the alternate and
      `v` the successor; in a heuristic `a` is the length still needed from
      here on and `v` the length needed after this node.  Zero is no node. */
  datatype Cell =
    | Title(size: int)
    | Func(op: Op, size: int)
    | Conn(a: int, v: int)
    | Heur(a: int, v: int)
    | Parm(arg: Arg)

  function Node(op: Op, a: int, k: int, len: int, r: int): (cells: seq<Cell>)
    ensures |cells| == 3
  {
    [Func(op, 2), Conn(a, k), Heur(len, r)]
  }

  function ArgNode(op: Op, a: int, k: int, len: int, r: int, arg: Arg): (cells: seq<Cell>)
    ensures |cells| == 4
  {
    [Func(op, 3), Conn(a, k), Heur(len, r), Parm(arg)]
  }

  function Size(p: Pat): (n: nat)
    ensures n >= 4
  {
    match p
    case Arb => 9
    case Bal => 9
    case Alt(l, r) => Size(l) + Size(r)
    case Cat(l, r) => Size(l) + Size(r)
    case Arbno(b) => Size(b) + 24
    case Capture(b, _) => 3 + Size(b) + 4
    case Single(_) => 4
  }

  function LeafOp(l: Leaf): Op {
    match l
    case Lit(_) => CHR
    case Len(_) => LNTH
    case Pos(_) => POSI
    case RPos(_) => RPSI
    case Tab(_) => TB
    case RTab(_) => RTB
    case AnyOf(_) => ANYC
    case NotAny(_) => NNYC
    case Span(_) => SPNC
    case Break(_) => BRKC
  }

  function LeafArg(l: Leaf): Arg {
    match l
    case Lit(t) => Str(t)
    case Len(n) => Int(n)
    case Pos(n) => Int(n)
    case RPos(n) => Int(n)
    case Tab(n) => Int(n)
    case RTab(n) => Int(n)
    case AnyOf(cs) => Str(cs)
    case NotAny(cs) => Str(cs)
    case Span(cs) => Str(cs)
    case Break(cs) => Str(cs)
  }

  /** ARB and BAL: a guard node, a first try and a retry that is its own
      alternate. */
  function Retry(first: Op, retry: Op, o: int, k: int, a: int, r: int): (cells: seq<Cell>)
    ensures |cells| == 9
  {
    Node(SCOK, a, o + 3, r, r) + (Node(first, o + 6, k, r, r) + Node(retry, o + 6, k, r, r))
  }

  function ArbnoHead(o: int, k: int, a: int, r: int): (cells: seq<Cell>)
    ensures |cells| == 12
  {
    Node(SCOK, a, o + 3, r, r) + (Node(SCOK, o + 6, k, r, r)
    + (Node(ARBN, o + 9, o + 12, r, r) + Node(ARBF, 0, k, r, r)))
  }

  function ArbnoTail(z: int, loop: int, k: int, r: int): (cells: seq<Cell>)
    ensures |cells| == 12
  {
    Node(EARB, 0, z + 3, r, r) + (Node(SCOK, z + 6, k, r, r)
    + (Node(ONAR, z + 9, loop, r, r) + Node(ONRF, 0, loop, r, r)))
  }

  /** The nodes for p, to be placed after offset o: success leads to the node
      k, failure of the last alternate to the node a, and at least r characters
      are needed after p. */
  function Cells(p: Pat, o: int, k: int, a: int, r: int): (cells: seq<Cell>)
    ensures |cells| == Size(p)
  {
    match p
    case Arb => Retry(SCOK, FARB, o, k, a, r)
    case Bal => Retry(BAL, BALF, o, k, a, r)
    case Alt(x, y) => Cells(x, o, k, o + Size(x), r) + Cells(y, o + Size(x), k, a, r)
    case Cat(x, y) => Cells(x, o, o + Size(x), a, MinLen(y) + r) + Cells(y, o + Size(x), k, 0, r)
    case Arbno(b) =>
      ArbnoHead(o, k, a, r)
      + (Cells(b, o + 12, o + 12 + Size(b), 0, r) + ArbnoTail(o + 12 + Size(b), o + 6, k, r))
    case Capture(b, name) =>
      Node(NME, a, o + 3, MinLen(b) + r, MinLen(b) + r)
      + (Cells(b, o + 3, o + 3 + Size(b), 0, r) + ArgNode(ENME, 0, k, r, r, Str(name)))
    case Single(l) => ArgNode(LeafOp(l), a, k, LeafMin(l) + r, r, LeafArg(l))
  }

  // The cases of the definitions, one by one.

  lemma CellsAlt(x: Pat, y: Pat, o: int, k: int, a: int, r: int)
    ensures Cells(Alt(x, y), o, k, a, r) == Cells(x, o, k, o + Size(x), r) + Cells(y, o + Size(x), k, a, r)
    ensures Size(Alt(x, y)) == Size(x) + Size(y)
  {
    hide MinLen, Node, ArgNode, Retry, ArbnoHead, ArbnoTail, LeafOp, LeafArg, LeafMin;
  }

  lemma CellsCat(x: Pat, y: Pat, o: int, k: int, a: int, r: int)
    ensures Cells(Cat(x, y), o, k, a, r)
         == Cells(x, o, o + Size(x), a, MinLen(y) + r) + Cells(y, o + Size(x), k, 0, r)
    ensures Size(Cat(x, y)) == Size(x) + Size(y)
  {
    hide MinLen, Node, ArgNode, Retry, ArbnoHead, ArbnoTail, LeafOp, LeafArg, LeafMin;
  }

  lemma CellsArbno(b: Pat, o: int, k: int, a: int, r: int)
    ensures Cells(Arbno(b), o, k, a, r)
         == ArbnoHead(o, k, a, r)
            + (Cells(b, o + 12, o + 12 + Size(b), 0, r) + ArbnoTail(o + 12 + Size(b), o + 6, k, r))
    ensures Size(Arbno(b)) == Size(b) + 24
  {
    hide MinLen, Node, ArgNode, Retry, ArbnoHead, ArbnoTail, LeafOp, LeafArg, LeafMin;
  }

  lemma CellsCapture(b: Pat, name: string, o: int, k: int, a: int, r: int)
    ensures Cells(Capture(b, name), o, k, a, r)
         == Node(NME, a, o + 3, MinLen(b) + r, MinLen(b) + r)
            + (Cells(b, o + 3, o + 3 + Size(b), 0, r) + ArgNode(ENME, 0, k, r, r, Str(name)))
    ensures Size(Capture(b, name)) == Size(b) + 7
  {
    hide MinLen, Node, ArgNode, Retry, ArbnoHead, ArbnoTail, LeafOp, LeafArg, LeafMin;
  }

  lemma CellsBase(l: Leaf, o: int, k: int, a: int, r: int)
    ensures Cells(Single(l), o, k, a, r) == ArgNode(LeafOp(l), a, k, LeafMin(l) + r, r, LeafArg(l))
    ensures Cells(Arb, o, k, a, r) == Retry(SCOK, FARB, o, k, a, r)
    ensures Cells(Bal, o, k, a, r) == Retry(BAL, BALF, o, k, a, r)
    ensures Size(Single(l)) == 4 && Size(Arb) == Size(Bal) == 9
  {
    hide MinLen, Node, ArgNode, Retry, ArbnoHead, ArbnoTail, LeafOp, LeafArg, LeafMin;
  }

  /** The block of a whole pattern value. */
  function Block(p: Pat): (code: seq<Cell>) {
    [Title(Size(p))] + Cells(p, 0, 0, 0, 0)
  }

  lemma BlockParts(p: Pat)
    ensures Block(p) == [Title(Size(p))] + Cells(p, 0, 0, 0, 0)
    ensures |Block(p)| == Size(p) + 1 && Block(p)[0] == Title(Size(p)) && Block(p)[1..] == Cells(p, 0, 0, 0, 0)
  {
    hide Cells, Size;
  }

  // ---------------------------------------------------------------- relocation

  /** What copying does to one cell: links move by `shift`, the empty successor
      becomes `next`, and `more` further characters are needed afterwards. */
  function Moved(c: Cell, more: int, shift: int, next: int): Cell {
    match c
    case Conn(a, v) => Conn(Relink(a, shift, 0), Relink(v, shift, next))
    case Heur(a, v) => Heur(a + more, v + more)
    case _ => c
  }

  function Relink(link: int, shift: int, empty: int): int {
    if link == 0 then empty else link + shift
  }

  function MovedAll(cells: seq<Cell>, more: int, shift: int, next: int): (r: seq<Cell>)
    ensures |r| == |cells|
    ensures forall i :: 0 <= i < |cells| ==> r[i] == Moved(cells[i], more, shift, next)
  {
    seq(|cells|, i requires 0 <= i < |cells| => Moved(cells[i], more, shift, next))
  }

  lemma MovedConcat(x: seq<Cell>, y: seq<Cell>, more: int, shift: int, next: int)
    ensures MovedAll(x + y, more, shift, next) == MovedAll(x, more, shift, next) + MovedAll(y, more, shift, next)
  {
  }

  lemma MovedNode(op: Op, a: int, k: int, len: int, r: int, more: int, at: int, next: int)
    ensures MovedAll(Node(op, a, k, len, r), more, at, next)
         == Node(op, Relink(a, at, 0), Relink(k, at, next), len + more, r + more)
  {
  }

  lemma MovedArgNode(op: Op, a: int, k: int, len: int, r: int, arg: Arg, more: int, at: int, next: int)
    ensures MovedAll(ArgNode(op, a, k, len, r, arg), more, at, next)
         == ArgNode(op, Relink(a, at, 0), Relink(k, at, next), len + more, r + more, arg)
  {
  }

  lemma MovedRetry(first: Op, retry: Op, o: nat, k: int, a: int, r: int, more: int, at: nat, next: int)
    ensures MovedAll(Retry(first, retry, o, k, a, r), more, at, next)
         == Retry(first, retry, o + at, Relink(k, at, next), Relink(a, at, 0), r + more)
  {
  }

  lemma MovedArbnoHead(o: nat, k: int, a: int, r: int, more: int, at: nat, next: int)
    ensures MovedAll(ArbnoHead(o, k, a, r), more, at, next)
         == ArbnoHead(o + at, Relink(k, at, next), Relink(a, at, 0), r + more)
  {
  }

  lemma MovedArbnoTail(z: nat, loop: int, k: int, r: int, more: int, at: nat, next: int)
    requires loop != 0
    ensures MovedAll(ArbnoTail(z, loop, k, r), more, at, next)
         == ArbnoTail(z + at, loop + at, Relink(k, at, next), r + more)
  {
  }

  /** Copying moves a pattern: inner links move with it, its empty successor
      becomes `next`, and it needs `more` further characters. */
  lemma {:induction false} MovedCells(p: Pat, o: nat, k: int, a: int, r: int, more: int, at: nat, next: int)
    ensures MovedAll(Cells(p, o, k, a, r), more, at, next)
         == Cells(p, o + at, Relink(k, at, next), Relink(a, at, 0), r + more)
    decreases p
  {
    hide *;
    var k', a' := Relink(k, at, next), Relink(a, at, 0);
    match p
    case Single(l) =>
      CellsBase(l, o, k, a, r);
      CellsBase(l, o + at, k', a', r + more);
      MovedArgNode(LeafOp(l), a, k, LeafMin(l) + r, r, LeafArg(l), more, at, next);
    case Arb =>
      CellsBase(Lit(""), o, k, a, r);
      CellsBase(Lit(""), o + at, k', a', r + more);
      MovedRetry(SCOK, FARB, o, k, a, r, more, at, next);
    case Bal =>
      CellsBase(Lit(""), o, k, a, r);
      CellsBase(Lit(""), o + at, k', a', r + more);
      MovedRetry(BAL, BALF, o, k, a, r, more, at, next);
    case Alt(x, y) =>
      var m := o + Size(x);
      CellsAlt(x, y, o, k, a, r);
      CellsAlt(x, y, o + at, k', a', r + more);
      MovedCells(x, o, k, m, r, more, at, next);
      MovedCells(y, m, k, a, r, more, at, next);
      Relinked(m, at, next);
      MovedConcat(Cells(x, o, k, m, r), Cells(y, m, k, a, r), more, at, next);
    case Cat(x, y) =>
      var m := o + Size(x);
      CellsCat(x, y, o, k, a, r);
      CellsCat(x, y, o + at, k', a', r + more);
      MovedCells(x, o, m, a, MinLen(y) + r, more, at, next);
      MovedCells(y, m, k, 0, r, more, at, next);
      Relinked(m, at, next);
      MovedConcat(Cells(x, o, m, a, MinLen(y) + r), Cells(y, m, k, 0, r), more, at, next);
    case Arbno(b) =>
      var z := o + 12 + Size(b);
      CellsArbno(b, o, k, a, r);
      CellsArbno(b, o + at, k', a', r + more);
      MovedArbnoHead(o, k, a, r, more, at, next);
      MovedCells(b, o + 12, z, 0, r, more, at, next);
      Relinked(z, at, next);
      MovedArbnoTail(z, o + 6, k, r, more, at, next);
      MovedConcat(Cells(b, o + 12, z, 0, r), ArbnoTail(z, o + 6, k, r), more, at, next);
      MovedConcat(ArbnoHead(o, k, a, r), Cells(b, o + 12, z, 0, r) + ArbnoTail(z, o + 6, k, r), more, at, next);
    case Capture(b, name) =>
      var z := o + 3 + Size(b);
      var tail := ArgNode(ENME, 0, k, r, r, Str(name));
      CellsCapture(b, name, o, k, a, r);
      CellsCapture(b, name, o + at, k', a', r + more);
      MovedNode(NME, a, o + 3, MinLen(b) + r, MinLen(b) + r, more, at, next);
      MovedCells(b, o + 3, z, 0, r, more, at, next);
      Relinked(z, at, next);
      Relinked(o + 3, at, next);
      MovedArgNode(ENME, 0, k, r, r, Str(name), more, at, next);
      MovedConcat(Cells(b, o + 3, z, 0, r), tail, more, at, next);
      MovedConcat(Node(NME, a, o + 3, MinLen(b) + r, MinLen(b) + r), Cells(b, o + 3, z, 0, r) + tail, more, at, next);
  }

  lemma Relinked(link: int, at: int, next: int)
    ensures link != 0 ==> Relink(link, at, next) == Relink(link, at, 0) == link + at
    ensures Relink(0, at, 0) == 0 && Relink(0, at, next) == next
  {
  }

  // -------------------------------------------------------------------- copying

  /** The cells start with a whole node. */
  predicate Shaped(cells: seq<Cell>) {
    && 3 <= |cells| && cells[0].Func? && cells[1].Conn? && cells[2].Heur?
    && 2 <= cells[0].size <= 3 && cells[0].size < |cells|
    && (cells[0].size == 3 ==> cells[3].Parm?)
  }

  /** The cells are whole nodes, as the copy loop walks over them. */
  ghost predicate Walks(cells: seq<Cell>)
    decreases |cells|
  {
    cells == [] || (Shaped(cells) && Walks(cells[cells[0].size + 1..]))
  }

  lemma {:induction false} WalksConcat(x: seq<Cell>, y: seq<Cell>)
    requires Walks(x) && Walks(y)
    ensures Walks(x + y)
    decreases |x|
  {
    if x == [] {
      assert x + y == y;
    } else {
      var n := x[0].size + 1;
      assert Shaped(x + y);
      WalksConcat(x[n..], y);
      assert (x + y)[n..] == x[n..] + y;
    }
  }

  lemma NodeWalks(op: Op, a: int, k: int, len: int, r: int)
    ensures Walks(Node(op, a, k, len, r))
  {
    assert Node(op, a, k, len, r)[3..] == [];
  }

  lemma ArgNodeWalks(op: Op, a: int, k: int, len: int, r: int, arg: Arg)
    ensures Walks(ArgNode(op, a, k, len, r, arg))
  {
    assert ArgNode(op, a, k, len, r, arg)[4..] == [];
  }

  lemma FourWalk(a: seq<Cell>, b: seq<Cell>, c: seq<Cell>, d: seq<Cell>)
    requires Walks(a) && Walks(b) && Walks(c) && Walks(d)
    ensures Walks(a + (b + (c + d)))
  {
    WalksConcat(c, d);
    WalksConcat(b, c + d);
    WalksConcat(a, b + (c + d));
  }

  lemma RetryWalks(first: Op, retry: Op, o: int, k: int, a: int, r: int)
    ensures Walks(Retry(first, retry, o, k, a, r))
  {
    NodeWalks(SCOK, a, o + 3, r, r);
    NodeWalks(first, o + 6, k, r, r);
    NodeWalks(retry, o + 6, k, r, r);
    WalksConcat(Node(first, o + 6, k, r, r), Node(retry, o + 6, k, r, r));
    WalksConcat(Node(SCOK, a, o + 3, r, r), Node(first, o + 6, k, r, r) + Node(retry, o + 6, k, r, r));
  }

  lemma ArbnoHeadWalks(o: int, k: int, a: int, r: int)
    ensures Walks(ArbnoHead(o, k, a, r))
  {
    NodeWalks(SCOK, a, o + 3, r, r);
    NodeWalks(SCOK, o + 6, k, r, r);
    NodeWalks(ARBN, o + 9, o + 12, r, r);
    NodeWalks(ARBF, 0, k, r, r);
    FourWalk(Node(SCOK, a, o + 3, r, r), Node(SCOK, o + 6, k, r, r),
             Node(ARBN, o + 9, o + 12, r, r), Node(ARBF, 0, k, r, r));
  }

  lemma ArbnoTailWalks(z: int, loop: int, k: int, r: int)
    ensures Walks(ArbnoTail(z, loop, k, r))
  {
    NodeWalks(EARB, 0, z + 3, r, r);
    NodeWalks(SCOK, z + 6, k, r, r);
    NodeWalks(ONAR, z + 9, loop, r, r);
    NodeWalks(ONRF, 0, loop, r, r);
    FourWalk(Node(EARB, 0, z + 3, r, r), Node(SCOK, z + 6, k, r, r),
             Node(ONAR, z + 9, loop, r, r), Node(ONRF, 0, loop, r, r));
  }

  lemma {:induction false} CellsWalk(p: Pat, o: int, k: int, a: int, r: int)
    ensures Walks(Cells(p, o, k, a, r))
    decreases p
  {
    hide *;
    match p
    case Single(l) =>
      CellsBase(l, o, k, a, r);
      ArgNodeWalks(LeafOp(l), a, k, LeafMin(l) + r, r, LeafArg(l));
    case Arb =>
      CellsBase(Lit(""), o, k, a, r);
      RetryWalks(SCOK, FARB, o, k, a, r);
    case Bal =>
      CellsBase(Lit(""), o, k, a, r);
      RetryWalks(BAL, BALF, o, k, a, r);
    case Alt(x, y) =>
      var m := o + Size(x);
      CellsAlt(x, y, o, k, a, r);
      CellsWalk(x, o, k, m, r);
      CellsWalk(y, m, k, a, r);
      WalksConcat(Cells(x, o, k, m, r), Cells(y, m, k, a, r));
    case Cat(x, y) =>
      var m := o + Size(x);
      CellsCat(x, y, o, k, a, r);
      CellsWalk(x, o, m, a, MinLen(y) + r);
      CellsWalk(y, m, k, 0, r);
      WalksConcat(Cells(x, o, m, a, MinLen(y) + r), Cells(y, m, k, 0, r));
    case Arbno(b) =>
      var z := o + 12 + Size(b);
      CellsArbno(b, o, k, a, r);
      ArbnoHeadWalks(o, k, a, r);
      CellsWalk(b, o + 12, z, 0, r);
      ArbnoTailWalks(z, o + 6, k, r);
      WalksConcat(Cells(b, o + 12, z, 0, r), ArbnoTail(z, o + 6, k, r));
      WalksConcat(ArbnoHead(o, k, a, r), Cells(b, o + 12, z, 0, r) + ArbnoTail(z, o + 6, k, r));
    case Capture(b, name) =>
      var z := o + 3 + Size(b);
      var head, tail := Node(NME, a, o + 3, MinLen(b) + r, MinLen(b) + r), ArgNode(ENME, 0, k, r, r, Str(name));
      CellsCapture(b, name, o, k, a, r);
      NodeWalks(NME, a, o + 3, MinLen(b) + r, MinLen(b) + r);
      CellsWalk(b, o + 3, z, 0, r);
      ArgNodeWalks(ENME, 0, k, r, r, Str(name));
      WalksConcat(Cells(b, o + 3, z, 0, r), tail);
      WalksConcat(head, Cells(b, o + 3, z, 0, r) + tail);
  }

  /** One round of the copy loop: the node at r2 of src goes behind r1. */
  method CopyNode(dst: array<Cell>, r1: int, src: seq<Cell>, r2: int, a3: int, a4: int, a5: int) returns (v7: int)
    requires 0 <= r2 && r2 + 3 < |src| && src[r2 + 1].Func? && src[r2 + 2].Conn? && src[r2 + 3].Heur?
    requires 2 <= src[r2 + 1].size <= 3 && r2 + src[r2 + 1].size + 1 < |src|
    requires src[r2 + 1].size == 3 ==> src[r2 + 4].Parm?
    requires 0 <= r1 && r1 + src[r2 + 1].size + 1 < dst.Length
    modifies dst
    ensures v7 == src[r2 + 1].size
    ensures forall i :: r1 < i <= r1 + v7 + 1 ==> dst[i] == Moved(src[i - r1 + r2], a3, a4, a5)
    ensures forall i :: 0 <= i <= r1 || r1 + v7 + 1 < i < dst.Length ==> dst[i] == old(dst[i])
  {
    v7 := src[r2 + 1].size;
    dst[r1 + 1] := src[r2 + 1];
    var a8, v8 := src[r2 + 2].a, src[r2 + 2].v;
    dst[r1 + 2] := Conn(if a8 == 0 then 0 else a8 + a4, if v8 == 0 then a5 else v8 + a4);
    var a9, v9 := src[r2 + 3].a, src[r2 + 3].v;
    dst[r1 + 3] := Heur(a9 + a3, v9 + a3);
    if v7 == 3 {
      dst[r1 + 4] := src[r2 + 4];
    }
  }

  lemma WalkStep(src: seq<Cell>, o: int, n: int)
    requires 0 <= o && 0 < n && o + n < |src| && Walks(src[o + 1..o + n + 1])
    ensures 3 <= n && src[o + 1].Func? && src[o + 2].Conn? && src[o + 3].Heur?
    ensures 2 <= src[o + 1].size <= 3 && src[o + 1].size < n
    ensures src[o + 1].size == 3 ==> src[o + 4].Parm?
    ensures Walks(src[o + src[o + 1].size + 2..o + n + 1])
  {
    var rest := src[o + 1..o + n + 1];
    assert rest[rest[0].size + 1..] == src[o + src[o + 1].size + 2..o + n + 1];
  }

  /** cpypat: copy a6 cells of the block src behind offset r1 of dst. */
  method Cpypat(dst: array<Cell>, r1: int, src: seq<Cell>, a3: int, a4: int, a5: int, a6: int) returns (d1: int)
    requires 0 <= r1 && 0 < a6 < |src| && r1 + a6 < dst.Length
    requires Walks(src[1..a6 + 1])
    modifies dst
    ensures d1 == r1 + a6
    ensures dst[..d1 + 1] == old(dst[..r1 + 1]) + MovedAll(src[1..a6 + 1], a3, a4, a5)
    ensures dst[d1 + 1..] == old(dst[r1 + a6 + 1..])
  {
    hide Moved, Walks;
    var r2, r3 := 0, a6;
    d1 := r1;
    while r3 > 0
      invariant r2 + r3 == a6 && d1 == r1 + r2 && 0 <= r2 && 0 <= r3
      invariant Walks(src[r2 + 1..a6 + 1])
      invariant forall i :: r1 < i <= d1 ==> dst[i] == Moved(src[i - r1], a3, a4, a5)
      invariant forall i :: 0 <= i <= r1 || d1 < i < dst.Length ==> dst[i] == old(dst[i])
    {
      WalkStep(src, r2, r3);
      var v7 := CopyNode(dst, d1, src, r2, a3, a4, a5);
      d1 := d1 + v7 + 1;
      r2 := r2 + v7 + 1;
      r3 := r3 - (v7 + 1);
    }
  }
}
