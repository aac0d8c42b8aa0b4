/** The operations of the language that build pattern blocks.  Each allocates a
    block and fills it by copying and linking; each is proved to produce exactly
    the block of the corresponding pattern. */
module PatternBuild {
  import opened PatternAlgebra
  import opened PatternCode

  /** The given cells sit in code after offset o. */
  ghost predicate Has(code: seq<Cell>, o: int, cells: seq<Cell>) {
    0 <= o && o + |cells| + 1 <= |code| && code[o + 1..o + |cells| + 1] == cells
  }

  lemma HasSplit(code: seq<Cell>, o: int, x: seq<Cell>, y: seq<Cell>)
    requires Has(code, o, x + y)
    ensures Has(code, o, x) && Has(code, o + |x|, y)
  {
    assert code[o + 1..o + |x| + 1] == (x + y)[..|x|];
    assert code[o + |x| + 1..o + |x| + |y| + 1] == (x + y)[|x|..];
  }

  lemma HasJoin(code: seq<Cell>, o: int, x: seq<Cell>, y: seq<Cell>)
    requires Has(code, o, x) && Has(code, o + |x|, y)
    ensures Has(code, o, x + y)
  {
    assert code[o + 1..o + |x| + |y| + 1] == code[o + 1..o + |x| + 1] + code[o + |x| + 1..o + |x| + |y| + 1];
  }

  lemma InFront(code: seq<Cell>, t: Cell, x: seq<Cell>, y: seq<Cell>)
    requires code == [t] + x + y
    ensures Has(code, 0, x)
  {
    assert code[1..|x| + 1] == x;
  }

  lemma FrontReplaced(code: seq<Cell>, code': seq<Cell>, t: Cell, x: seq<Cell>, x': seq<Cell>, y: seq<Cell>)
    requires code == [t] + x + y && |x'| == |x| && |code'| == |code|
    requires Has(code', 0, x') && code'[..1] == code[..1] && code'[|x| + 1..] == code[|x| + 1..]
    ensures code' == [t] + x' + y
  {
    assert code' == code'[..1] + code'[1..|x| + 1] + code'[|x| + 1..];
    assert code[|x| + 1..] == y;
  }

  // ------------------------------------------------------- the alternate chain

  /** The nodes on p's outermost alternate chain, first to last. */
  function Alts(p: Pat, o: int): (offs: seq<int>)
    ensures offs != [] && offs[0] == o
    ensures forall i :: 0 < i < |offs| ==> o < offs[i]
  {
    match p
    case Alt(x, y) => Alts(x, o) + Alts(y, o + Size(x))
    case Cat(x, _) => Alts(x, o)
    case _ => [o]
  }

  /** offs is a chain of alternates in code that ends with the link a, and the
      least length stored along it is least. */
  ghost predicate Chain(code: seq<Cell>, offs: seq<int>, a: int, least: int) {
    && (forall i :: 0 <= i < |offs| ==>
         && 0 <= offs[i] && offs[i] + 3 < |code|
         && code[offs[i] + 2].Conn? && code[offs[i] + 3].Heur?
         && code[offs[i] + 2].a == (if i + 1 < |offs| then offs[i + 1] else a)
         && code[offs[i] + 3].a >= least)
    && (exists i :: 0 <= i < |offs| && code[offs[i] + 3].a == least)
  }

  /** One link of a chain. */
  lemma ChainStep(code: seq<Cell>, offs: seq<int>, a: int, least: int, i: int)
    requires Chain(code, offs, a, least) && 0 <= i < |offs|
    ensures 0 <= offs[i] && offs[i] + 3 < |code| && code[offs[i] + 2].Conn? && code[offs[i] + 3].Heur?
    ensures code[offs[i] + 2].a == (if i + 1 < |offs| then offs[i + 1] else a)
    ensures code[offs[i] + 3].a >= least
  {
  }

  lemma ChainLeast(code: seq<Cell>, offs: seq<int>, a: int, least: int) returns (w: int)
    requires Chain(code, offs, a, least)
    ensures 0 <= w < |offs| && 0 <= offs[w] && offs[w] + 3 < |code| && code[offs[w] + 3].Heur?
    ensures code[offs[w] + 3].a == least
  {
    w :| 0 <= w < |offs| && code[offs[w] + 3].a == least;
  }

  lemma ChainJoin(code: seq<Cell>, x: seq<int>, y: seq<int>, a: int, lx: int, ly: int)
    requires y != [] && Chain(code, x, y[0], lx) && Chain(code, y, a, ly)
    ensures Chain(code, x + y, a, if ly < lx then ly else lx)
  {
    var z := x + y;
    if ly < lx {
      var i :| 0 <= i < |y| && code[y[i] + 3].a == ly;
      assert z[|x| + i] == y[i];
    } else {
      var i :| 0 <= i < |x| && code[x[i] + 3].a == lx;
      assert z[i] == x[i];
    }
    forall i | 0 <= i < |z|
      ensures 0 <= z[i] && z[i] + 3 < |code| && code[z[i] + 2].Conn? && code[z[i] + 3].Heur?
      ensures code[z[i] + 2].a == (if i + 1 < |z| then z[i + 1] else a)
      ensures code[z[i] + 3].a >= (if ly < lx then ly else lx)
    {
      if i < |x| {
        ChainStep(code, x, y[0], lx, i);
        assert z[i] == x[i] && z[i + 1] == if i + 1 < |x| then x[i + 1] else y[0];
      } else {
        ChainStep(code, y, a, ly, i - |x|);
        assert z[i] == y[i - |x|] && (i + 1 < |z| ==> z[i + 1] == y[i - |x| + 1]);
      }
    }
  }

  /** Every pattern but an alternation or a concatenation starts with a node
      that holds its alternate and its need; nothing else depends on the
      alternate. */
  lemma FirstNode(p: Pat, o: int, k: int, a: int, r: int)
    requires !p.Alt? && !p.Cat?
    ensures Cells(p, o, k, a, r)[1].Conn? && Cells(p, o, k, a, r)[1].a == a
    ensures Cells(p, o, k, a, r)[2].Heur? && Cells(p, o, k, a, r)[2].a == MinLen(p) + r
    ensures Cells(p, o, k, a, r) == Cells(p, o, k, 0, r)[1 := Conn(a, Cells(p, o, k, 0, r)[1].v)]
  {
    hide Size, Cells, LeafMin, LeafOp, LeafArg, ArbnoTail;
    match p
    case Single(l) =>
      CellsBase(l, o, k, a, r);
      CellsBase(l, o, k, 0, r);
    case Arb =>
      CellsBase(Lit(""), o, k, a, r);
      CellsBase(Lit(""), o, k, 0, r);
    case Bal =>
      CellsBase(Lit(""), o, k, a, r);
      CellsBase(Lit(""), o, k, 0, r);
    case Arbno(b) =>
      CellsArbno(b, o, k, a, r);
      CellsArbno(b, o, k, 0, r);
    case Capture(b, name) =>
      CellsCapture(b, name, o, k, a, r);
      CellsCapture(b, name, o, k, 0, r);
  }

  lemma OneNodeChain(code: seq<Cell>, p: Pat, o: int, k: int, a: int, r: int)
    requires !p.Alt? && !p.Cat? && Has(code, o, Cells(p, o, k, a, r))
    ensures Chain(code, [o], a, MinLen(p) + r)
  {
    hide Cells, Size, MinLen;
    FirstNode(p, o, k, a, r);
    var cells := Cells(p, o, k, a, r);
    assert code[o + 2] == cells[1] && code[o + 3] == cells[2];
    assert code[[o][0] + 3].a == MinLen(p) + r;
  }

  lemma AltsCases(p: Pat, o: int)
    ensures match p
            case Alt(x, y) => Alts(p, o) == Alts(x, o) + Alts(y, o + Size(x))
                              && MinLen(p) == if MinLen(y) < MinLen(x) then MinLen(y) else MinLen(x)
            case Cat(x, y) => Alts(p, o) == Alts(x, o) && MinLen(p) == MinLen(x) + MinLen(y)
            case _ => Alts(p, o) == [o]
  {
  }

  lemma {:induction false} AltsChain(code: seq<Cell>, p: Pat, o: int, k: int, a: int, r: int)
    requires Has(code, o, Cells(p, o, k, a, r))
    ensures Chain(code, Alts(p, o), a, MinLen(p) + r)
    decreases p
  {
    hide *;
    AltsCases(p, o);
    match p
    case Alt(x, y) =>
      var m := o + Size(x);
      CellsAlt(x, y, o, k, a, r);
      HasSplit(code, o, Cells(x, o, k, m, r), Cells(y, m, k, a, r));
      AltsChain(code, x, o, k, m, r);
      AltsChain(code, y, m, k, a, r);
      ChainJoin(code, Alts(x, o), Alts(y, m), a, MinLen(x) + r, MinLen(y) + r);
    case Cat(x, y) =>
      var m := o + Size(x);
      CellsCat(x, y, o, k, a, r);
      HasSplit(code, o, Cells(x, o, m, a, MinLen(y) + r), Cells(y, m, k, 0, r));
      AltsChain(code, x, o, m, a, MinLen(y) + r);
    case _ =>
      OneNodeChain(code, p, o, k, a, r);
  }

  function LastAlt(p: Pat, o: int): (last: int)
    ensures last == Alts(p, o)[|Alts(p, o)| - 1]
    ensures o <= last
  {
    match p
    case Alt(x, y) => LastAlt(y, o + Size(x))
    case Cat(x, _) => LastAlt(x, o)
    case _ => o
  }

  /** Only the alternate in the connector at i differs: it is a in code'. */
  ghost predicate Differs(code: seq<Cell>, code': seq<Cell>, i: int, a: int) {
    && |code'| == |code| && 0 <= i < |code| && code[i].Conn?
    && code'[i] == Conn(a, code[i].v)
    && forall j :: 0 <= j < |code| && j != i ==> code'[j] == code[j]
  }

  lemma DiffersFrame(code: seq<Cell>, code': seq<Cell>, i: int, a: int, o: int, cells: seq<Cell>)
    requires Differs(code, code', i, a) && Has(code, o, cells)
    requires i <= o || o + |cells| < i
    ensures Has(code', o, cells)
  {
  }

  /** Setting the last alternate of a chain that ends nowhere redirects the
      whole pattern's failure. */
  lemma {:induction false} Redirect(code: seq<Cell>, code': seq<Cell>, p: Pat, o: int, k: int, a: int, r: int)
    requires Has(code, o, Cells(p, o, k, 0, r))
    requires Differs(code, code', LastAlt(p, o) + 2, a)
    ensures Has(code', o, Cells(p, o, k, a, r))
    decreases p
  {
    hide *;
    LastAltCases(p, o);
    match p
    case Alt(x, y) =>
      var m := o + Size(x);
      CellsAlt(x, y, o, k, 0, r);
      CellsAlt(x, y, o, k, a, r);
      HasSplit(code, o, Cells(x, o, k, m, r), Cells(y, m, k, 0, r));
      Redirect(code, code', y, m, k, a, r);
      DiffersFrame(code, code', LastAlt(p, o) + 2, a, o, Cells(x, o, k, m, r));
      HasJoin(code', o, Cells(x, o, k, m, r), Cells(y, m, k, a, r));
    case Cat(x, y) =>
      var m := o + Size(x);
      CellsCat(x, y, o, k, 0, r);
      CellsCat(x, y, o, k, a, r);
      HasSplit(code, o, Cells(x, o, m, 0, MinLen(y) + r), Cells(y, m, k, 0, r));
      LastInside(x, o);
      Redirect(code, code', x, o, m, a, MinLen(y) + r);
      DiffersFrame(code, code', LastAlt(p, o) + 2, a, m, Cells(y, m, k, 0, r));
      HasJoin(code', o, Cells(x, o, m, a, MinLen(y) + r), Cells(y, m, k, 0, r));
    case _ =>
      RedirectFirst(code, code', p, o, k, a, r);
  }

  lemma RedirectFirst(code: seq<Cell>, code': seq<Cell>, p: Pat, o: int, k: int, a: int, r: int)
    requires !p.Alt? && !p.Cat?
    requires Has(code, o, Cells(p, o, k, 0, r)) && Differs(code, code', o + 2, a)
    ensures Has(code', o, Cells(p, o, k, a, r))
  {
    hide Cells, Size, MinLen;
    FirstNode(p, o, k, a, r);
    var before := Cells(p, o, k, 0, r);
    assert code[o + 2] == before[1];
    assert code'[o + 1..o + |before| + 1] == code[o + 1..o + |before| + 1][1 := Conn(a, before[1].v)];
  }

  lemma LastAltCases(p: Pat, o: int)
    ensures LastAlt(p, o) == match p
                             case Alt(x, y) => LastAlt(y, o + Size(x))
                             case Cat(x, _) => LastAlt(x, o)
                             case _ => o
    ensures Size(p) >= 4
  {
  }

  lemma LastInside(p: Pat, o: int)
    ensures LastAlt(p, o) + 4 <= o + Size(p)
  {
  }

  // ----------------------------------------------------------- the operations

  lemma BlockChain(code: seq<Cell>, p: Pat)
    requires code == Block(p)
    ensures Chain(code, Alts(p, 0), 0, MinLen(p))
  {
    hide *;
    BlockParts(p);
    assert code == [Title(Size(p))] + Cells(p, 0, 0, 0, 0) + [];
    InFront(code, Title(Size(p)), Cells(p, 0, 0, 0, 0), []);
    AltsChain(code, p, 0, 0, 0, 0);
  }

  /** lvalue: the least length that any of a pattern's alternates needs. */
  method Lvalue(code: seq<Cell>, ghost p: Pat) returns (least: int)
    requires code == Block(p)
    ensures least == MinLen(p)
  {
    BlockChain(code, p);
    hide *;
    ghost var offs := Alts(p, 0);
    ghost var i := 0;
    ghost var w := ChainLeast(code, offs, 0, MinLen(p));
    ChainStep(code, offs, 0, MinLen(p), 0);
    var offset := code[2].a;
    least := code[3].a;
    while offset != 0
      invariant 0 <= i < |offs| && offset == (if i + 1 < |offs| then offs[i + 1] else 0)
      invariant MinLen(p) <= least && (w <= i ==> least == MinLen(p))
      decreases |offs| - i
    {
      i := i + 1;
      ChainStep(code, offs, 0, MinLen(p), i);
      var j := code[offset + 3].a;
      if j < least {
        least := j;
      }
      offset := code[offset + 2].a;
    }
  }

  /** linkor: make d2 the alternate of the last node of the pattern's chain. */
  method Linkor(d1: array<Cell>, d2: int, ghost p: Pat, ghost k: int)
    requires Has(d1[..], 0, Cells(p, 0, k, 0, 0))
    modifies d1
    ensures Has(d1[..], 0, Cells(p, 0, k, d2, 0))
    ensures d1[..1] == old(d1[..1]) && d1[Size(p) + 1..] == old(d1[Size(p) + 1..])
  {
    hide *;
    ghost var code, offs, n := d1[..], Alts(p, 0), 0;
    AltsChain(code, p, 0, k, 0, 0);
    var i := 0;
    ChainStep(code, offs, 0, MinLen(p), n);
    var j := d1[2].a;
    while j != 0
      invariant 0 <= n < |offs| && i == offs[n] && j == (if n + 1 < |offs| then offs[n + 1] else 0)
      invariant 0 <= i && i + 2 < |code| && code[i + 2].Conn?
      invariant d1[..] == code
      decreases |offs| - n
    {
      i := j;
      n := n + 1;
      ChainStep(code, offs, 0, MinLen(p), n);
      j := d1[i + 2].a;
    }
    LastIsLast(code, p, k);
    d1[i + 2] := Conn(d2, d1[i + 2].v);
    OneDiffers(code, d1[..], i + 2, d2);
    Redirect(code, d1[..], p, 0, k, d2, 0);
    SlicesKept(code, d1[..], i + 2, d2, Size(p));
  }

  lemma LastIsLast(code: seq<Cell>, p: Pat, k: int)
    requires Has(code, 0, Cells(p, 0, k, 0, 0))
    ensures LastAlt(p, 0) == Alts(p, 0)[|Alts(p, 0)| - 1]
    ensures LastAlt(p, 0) + 4 <= Size(p) < |code|
  {
    LastInside(p, 0);
    hide Cells;
  }

  lemma SlicesKept(code: seq<Cell>, code': seq<Cell>, i: int, a: int, n: nat)
    requires Differs(code, code', i, a) && 0 < i <= n < |code|
    ensures code'[..1] == code[..1] && code'[n + 1..] == code[n + 1..]
  {
  }

  lemma OneDiffers(code: seq<Cell>, code': seq<Cell>, i: int, a: int)
    requires 0 <= i < |code| && code[i].Conn? && code' == code[i := Conn(a, code[i].v)]
    ensures Differs(code, code', i, a)
  {
  }

  /** The permanent blocks that patterns are copied from. */
  const ARBPT := [Title(9), Func(SCOK, 2), Conn(0, 3), Heur(0, 0), Func(SCOK, 2), Conn(6, 0), Heur(0, 0),
                  Func(FARB, 2), Conn(6, 0), Heur(0, 0)]
  const BALPT := [Title(9), Func(SCOK, 2), Conn(0, 3), Heur(0, 0), Func(BAL, 2), Conn(6, 0), Heur(0, 0),
                  Func(BALF, 2), Conn(6, 0), Heur(0, 0)]
  const ARHED := [Title(12), Func(SCOK, 2), Conn(0, 3), Heur(0, 0), Func(SCOK, 2), Conn(6, 0), Heur(0, 0),
                  Func(ARBN, 2), Conn(9, 12), Heur(0, 0), Func(ARBF, 2), Conn(0, 0), Heur(0, 0)]
  const ARTAL := [Title(6), Func(EARB, 2), Conn(0, 3), Heur(0, 0), Func(SCOK, 2), Conn(6, 0), Heur(0, 0)]
  const ARBAK := [Title(6), Func(ONAR, 2), Conn(3, 0), Heur(0, 0), Func(ONRF, 2), Conn(0, 0), Heur(0, 0)]

  lemma PermanentBlocks()
    ensures ARBPT == Block(Arb) && BALPT == Block(Bal)
  {
  }

  /** BLOCK: a titled block with room for n cells. */
  method NewBlock(n: nat) returns (z: array<Cell>)
    ensures fresh(z) && z.Length == n + 1 && z[..1] == [Title(n)]
  {
    z := new Cell[n + 1](_ => Heur(0, 0));
    z[0] := Title(n);
  }

  /** maknod on a fresh block: one node without links. */
  method Maknod(func: Op, size: int, min: int, arg: Option<Arg>) returns (z: array<Cell>)
    requires size == if arg.None? then 2 else 3
    ensures fresh(z)
    ensures z[..] == [Title(size + 1)] + (if arg.None? then Node(func, 0, 0, min, 0) else ArgNode(func, 0, 0, min, 0, arg.value))
  {
    z := NewBlock(size + 1);
    z[1] := Func(func, size);
    z[2] := Conn(0, 0);
    z[3] := Heur(min, 0);
    if arg.Some? {
      z[4] := Parm(arg.value);
    }
  }

  /** The primitives: a node for a literal, LEN, POS, RPOS, TAB, RTAB, ANY,
      NOTANY, SPAN or BREAK, unless the argument is refused. */
  method Primitive(l: Leaf) returns (z: Option<array<Cell>>)
    ensures z.Some? <==> LeafOk(l)
    ensures z.Some? ==> fresh(z.value) && z.value[..] == Block(Single(l))
  {
    if (l.AnyOf? || l.NotAny? || l.Span? || l.Break?) && l.cs == "" {
      return None;
    }
    var min := match l
      case Lit(t) => |t|
      case Len(n) => n
      case AnyOf(_) => 1
      case NotAny(_) => 1
      case Span(_) => 1
      case _ => 0;
    var node := Maknod(LeafOp(l), 3, min, Some(LeafArg(l)));
    z := Some(node);
  }

  lemma Pasted(src: seq<Cell>, p: Pat, more: int, at: nat, next: int)
    requires src == Block(p)
    ensures |src| == Size(p) + 1 && src[0] == Title(Size(p))
    ensures Walks(src[1..Size(p) + 1])
    ensures MovedAll(src[1..Size(p) + 1], more, at, next) == Cells(p, at, next, 0, more)
  {
    hide *;
    BlockParts(p);
    CellsWalk(p, 0, 0, 0, 0);
    MovedCells(p, 0, 0, 0, 0, more, at, next);
    Relinked(0, at, next);
    Relinked(0, at, 0);
    assert src[1..Size(p) + 1] == src[1..];
  }

  /** The parts that ARBNO and conditional assignment are assembled from. */
  lemma Parts(name: string, min: nat, xsiz: nat)
    ensures |ARHED| == 13 && ARHED[0] == Title(12) && |ARTAL| == |ARBAK| == 7
    ensures Walks(ARHED[1..13]) && MovedAll(ARHED[1..13], 0, 0, 0) == ArbnoHead(0, 0, 0, 0)
    ensures Walks(ARTAL[1..7]) && Walks(ARBAK[1..7])
    ensures MovedAll(ARTAL[1..7], 0, xsiz + 12, 0) + MovedAll(ARBAK[1..7], 0, xsiz + 18, 6) == ArbnoTail(xsiz + 12, 6, 0, 0)
    ensures Walks(Node(NME, 0, 0, 0, 0)) && MovedAll(Node(NME, 0, 0, 0, 0), min, 0, 3) == Node(NME, 0, 3, min, min)
    ensures Walks(ArgNode(ENME, 0, 0, 0, 0, Str(name)))
    ensures MovedAll(ArgNode(ENME, 0, 0, 0, 0, Str(name)), 0, xsiz + 3, 0) == ArgNode(ENME, 0, 0, 0, 0, Str(name))
  {
    assert ARHED[1..13] == ArbnoHead(0, 0, 0, 0);
    ArbnoHeadWalks(0, 0, 0, 0);
    assert ARTAL[1..7] == Node(EARB, 0, 3, 0, 0) + Node(SCOK, 6, 0, 0, 0);
    assert ARBAK[1..7] == Node(ONAR, 3, 0, 0, 0) + Node(ONRF, 0, 0, 0, 0);
    NodeWalks(EARB, 0, 3, 0, 0);
    NodeWalks(SCOK, 6, 0, 0, 0);
    NodeWalks(ONAR, 3, 0, 0, 0);
    NodeWalks(ONRF, 0, 0, 0, 0);
    WalksConcat(Node(EARB, 0, 3, 0, 0), Node(SCOK, 6, 0, 0, 0));
    WalksConcat(Node(ONAR, 3, 0, 0, 0), Node(ONRF, 0, 0, 0, 0));
    NodeWalks(NME, 0, 0, 0, 0);
    ArgNodeWalks(ENME, 0, 0, 0, 0, Str(name));
  }

  lemma Assoc(t: Cell, a: seq<Cell>, b: seq<Cell>, c: seq<Cell>)
    ensures [t] + (a + b) == [t] + a + b
    ensures [t] + (a + (b + c)) == [t] + a + b + c
  {
  }

  lemma GluedCat(p: Pat, q: Pat)
    ensures Block(Cat(p, q)) == [Title(Size(p) + Size(q))] + Cells(p, 0, Size(p), 0, MinLen(q)) + Cells(q, Size(p), 0, 0, 0)
  {
    hide *;
    BlockParts(Cat(p, q));
    CellsCat(p, q, 0, 0, 0, 0);
    Assoc(Title(Size(p) + Size(q)), Cells(p, 0, Size(p), 0, MinLen(q)), Cells(q, Size(p), 0, 0, 0), []);
  }

  lemma GluedAlt(p: Pat, q: Pat)
    ensures Block(Alt(p, q)) == [Title(Size(p) + Size(q))] + Cells(p, 0, 0, Size(p), 0) + Cells(q, Size(p), 0, 0, 0)
  {
    hide *;
    BlockParts(Alt(p, q));
    CellsAlt(p, q, 0, 0, 0, 0);
    Assoc(Title(Size(p) + Size(q)), Cells(p, 0, 0, Size(p), 0), Cells(q, Size(p), 0, 0, 0), []);
  }

  /** Both operands copied into one new block, the second after the first. */
  method Juxtapose(x: seq<Cell>, y: seq<Cell>, ghost p: Pat, ghost q: Pat, more: int, next: int) returns (z: array<Cell>)
    requires x == Block(p) && y == Block(q)
    ensures fresh(z)
    ensures z[..] == [Title(Size(p) + Size(q))] + Cells(p, 0, next, 0, more) + Cells(q, Size(p), 0, 0, 0)
  {
    hide *;
    Pasted(x, p, more, 0, next);
    Pasted(y, q, 0, Size(p), 0);
    var xsiz, ysiz := x[0].size, y[0].size;
    z := NewBlock(xsiz + ysiz);
    var tptr := Cpypat(z, 0, x, more, 0, next, xsiz);
    tptr := Cpypat(z, tptr, y, 0, xsiz, 0, ysiz);
    assert z[..] == z[..tptr + 1];
  }

  /** Concatenation. */
  method Concat(x: array<Cell>, y: array<Cell>, ghost p: Pat, ghost q: Pat) returns (z: array<Cell>)
    requires x[..] == Block(p) && y[..] == Block(q)
    ensures fresh(z) && z[..] == Block(Cat(p, q))
  {
    hide *;
    BlockParts(p);
    GluedCat(p, q);
    var tval := Lvalue(y[..], q);
    z := Juxtapose(x[..], y[..], p, q, tval, x[..][0].size);
  }

  /** Alternation. */
  method Or(x: array<Cell>, y: array<Cell>, ghost p: Pat, ghost q: Pat) returns (z: array<Cell>)
    requires x[..] == Block(p) && y[..] == Block(q)
    ensures fresh(z) && z[..] == Block(Alt(p, q))
  {
    hide *;
    BlockParts(p);
    GluedAlt(p, q);
    z := Juxtapose(x[..], y[..], p, q, 0, 0);
    ghost var before := z[..];
    ghost var t, front, back := Title(Size(p) + Size(q)), Cells(p, 0, 0, 0, 0), Cells(q, Size(p), 0, 0, 0);
    InFront(before, t, front, back);
    Linkor(z, x[..][0].size, p, 0);
    FrontReplaced(before, z[..], t, front, Cells(p, 0, 0, Size(p), 0), back);
  }

  lemma GluedArbno(p: Pat)
    ensures Block(Arbno(p)) == [Title(Size(p) + 24)] + ArbnoHead(0, 0, 0, 0)
                               + Cells(p, 12, 12 + Size(p), 0, 0) + ArbnoTail(12 + Size(p), 6, 0, 0)
  {
    hide *;
    BlockParts(Arbno(p));
    CellsArbno(p, 0, 0, 0, 0);
    Assoc(Title(Size(p) + 24), ArbnoHead(0, 0, 0, 0), Cells(p, 12, 12 + Size(p), 0, 0), ArbnoTail(12 + Size(p), 6, 0, 0));
  }

  /** ARBNO. */
  method ArbnoOf(x: array<Cell>, ghost p: Pat) returns (z: array<Cell>)
    requires x[..] == Block(p)
    ensures fresh(z) && z[..] == Block(Arbno(p))
  {
    hide *;
    Pasted(x[..], p, 0, 12, Size(p) + 12);
    Parts("", 0, Size(p));
    GluedArbno(p);
    var xsiz := x[0].size;
    z := NewBlock(xsiz + 24);
    var tsiz := ARHED[0].size;
    var tptr := Cpypat(z, 0, ARHED, 0, 0, 0, tsiz);
    var zsiz := xsiz + tsiz;
    tptr := Cpypat(z, tptr, x[..], 0, tsiz, zsiz, xsiz);
    tsiz := 6;
    tptr := Cpypat(z, tptr, ARTAL, 0, zsiz, 0, tsiz);
    zsiz := tsiz + zsiz;
    tptr := Cpypat(z, tptr, ARBAK, 0, zsiz, tsiz, tsiz);
    assert z[..] == z[..tptr + 1];
  }

  lemma GluedCapture(p: Pat, name: string)
    ensures Block(Capture(p, name)) == [Title(Size(p) + 7)] + Node(NME, 0, 3, MinLen(p), MinLen(p))
                                       + Cells(p, 3, 3 + Size(p), 0, 0) + ArgNode(ENME, 0, 0, 0, 0, Str(name))
  {
    hide *;
    BlockParts(Capture(p, name));
    CellsCapture(p, name, 0, 0, 0, 0);
    Assoc(Title(Size(p) + 7), Node(NME, 0, 3, MinLen(p), MinLen(p)),
          Cells(p, 3, 3 + Size(p), 0, 0), ArgNode(ENME, 0, 0, 0, 0, Str(name)));
  }

  /** Conditional assignment of what the pattern matches to a name. */
  method NameOf(x: array<Cell>, name: string, ghost p: Pat) returns (z: array<Cell>)
    requires x[..] == Block(p)
    ensures fresh(z) && z[..] == Block(Capture(p, name))
  {
    hide *;
    Pasted(x[..], p, 0, 3, Size(p) + 3);
    Parts(name, MinLen(p), Size(p));
    GluedCapture(p, name);
    var wptr := Maknod(NME, 2, 0, None);
    var yptr := Maknod(ENME, 3, 0, Some(Str(name)));
    assert wptr[..][1..4] == Node(NME, 0, 0, 0, 0);
    assert yptr[..][1..5] == ArgNode(ENME, 0, 0, 0, 0, Str(name));
    var xsiz := x[0].size;
    var ysiz := xsiz + 3;
    var tsiz := yptr[0].size;
    var zsiz := ysiz + tsiz;
    z := NewBlock(zsiz);
    var tval := Lvalue(x[..], p);
    var tptr := Cpypat(z, 0, wptr[..], tval, 0, 3, 3);
    tptr := Cpypat(z, tptr, x[..], 0, 3, ysiz, xsiz);
    tptr := Cpypat(z, tptr, yptr[..], 0, ysiz, 0, tsiz);
    assert z[..] == z[..tptr + 1];
  }
}
