/** Operator precedence: the one tree that the precedences of the operators
    allow for a sequence of operands and operators. */
module Precedence {

  /** An expression: an operand, or an operator with two operands.  Nodes are
      numbered. */
  datatype Exp = Elem(node: int) | Bin(node: int, left: Exp, right: Exp)

  /** The left and the right precedence of the operator at a node.  The left one
      counts against operators that follow, the right one against those before. */
  datatype Prec = Prec(left: int -> int, right: int -> int)

  function InOrder(t: Exp): (s: seq<int>)
    ensures s != []
  {
    match t
    case Elem(n) => [n]
    case Bin(n, l, r) => InOrder(l) + [n] + InOrder(r)
  }

  /** Every operator down the left side of t binds at least as tightly as x. */
  predicate LeftTight(P: Prec, t: Exp, x: int) {
    t.Elem? || (P.right(t.node) >= x && LeftTight(P, t.left, x))
  }

  /** Every operator down the right side of t binds more tightly than x. */
  predicate RightTight(P: Prec, t: Exp, x: int) {
    t.Elem? || (P.left(t.node) > x && RightTight(P, t.right, x))
  }

  /** The tree respects the precedences. */
  predicate Respects(P: Prec, t: Exp) {
    t.Elem? || (
      && Respects(P, t.left) && RightTight(P, t.left, P.right(t.node))
      && Respects(P, t.right) && LeftTight(P, t.right, P.left(t.node)))
  }

  // --------------------------------------------------------------- the algorithm

  /** An operator that still lacks its right operand. */
  datatype Open = Open(node: int, left: Exp)

  /** t becomes the right operand of the operators that bind more tightly than
      x, from the last one upwards. */
  function Reduce(P: Prec, s: seq<Open>, t: Exp, x: int): (r: (seq<Open>, Exp))
    decreases |s|
  {
    if s == [] || P.left(s[|s| - 1].node) <= x then (s, t)
    else Reduce(P, s[..|s| - 1], Bin(s[|s| - 1].node, s[|s| - 1].left, t), x)
  }

  /** t becomes the right operand of the last operator, and so on. */
  function Close(s: seq<Open>, t: Exp): (r: Exp)
    decreases |s|
  {
    if s == [] then t else Close(s[..|s| - 1], Bin(s[|s| - 1].node, s[|s| - 1].left, t))
  }

  /** An operand e and an operator o have been read. */
  function Push(P: Prec, s: seq<Open>, e: int, o: int): (r: seq<Open>) {
    var (s', t) := Reduce(P, s, Elem(e), P.right(o));
    s' + [Open(o, t)]
  }

  /** The tree for the operands and operators w, alternating. */
  function Parse(P: Prec, s: seq<Open>, w: seq<int>): (t: Exp)
    requires |w| % 2 == 1
    decreases |w|
  {
    if |w| == 1 then Close(s, Elem(w[0])) else Parse(P, Push(P, s, w[0], w[1]), w[2..])
  }

  // ------------------------------------------------------------ what it achieves

  /** The tokens that the frames stand for. */
  function Read(s: seq<Open>): (w: seq<int>)
    decreases |s|
  {
    if s == [] then [] else Read(s[..|s| - 1]) + InOrder(s[|s| - 1].left) + [s[|s| - 1].node]
  }

  /** The frames will respect the precedences. */
  predicate FramesOk(P: Prec, s: seq<Open>)
    decreases |s|
  {
    s == [] || (
      && FramesOk(P, s[..|s| - 1])
      && var f := s[|s| - 1];
         && Respects(P, f.left) && RightTight(P, f.left, P.right(f.node))
         && Fits(P, s[..|s| - 1], Bin(f.node, f.left, Elem(0))))
  }

  /** t may be the right operand of the last operator. */
  predicate Fits(P: Prec, s: seq<Open>, t: Exp) {
    s == [] || LeftTight(P, t, P.left(s[|s| - 1].node))
  }

  /** The last operator with its operands may be a right operand in turn. */
  lemma JoinOk(P: Prec, s: seq<Open>, t: Exp)
    requires s != [] && FramesOk(P, s) && Respects(P, t) && Fits(P, s, t)
    requires RightTight(P, s[|s| - 1].left, P.right(s[|s| - 1].node))
    ensures var f, r := s[|s| - 1], s[..|s| - 1];
            var u := Bin(f.node, f.left, t);
            && FramesOk(P, r) && Respects(P, u) && Fits(P, r, u) && Read(r) + InOrder(u) == Read(s) + InOrder(t)
  {
    hide Reduce, InOrder;
    JoinRead(s, t);
  }

  lemma JoinRead(s: seq<Open>, t: Exp)
    requires s != []
    ensures var f, r := s[|s| - 1], s[..|s| - 1];
            Read(r) + InOrder(Bin(f.node, f.left, t)) == Read(s) + InOrder(t)
  {
  }

  lemma LastTight(P: Prec, s: seq<Open>)
    requires s != [] && FramesOk(P, s)
    ensures RightTight(P, s[|s| - 1].left, P.right(s[|s| - 1].node))
  {
  }

  lemma {:induction false} ReduceOk(P: Prec, s: seq<Open>, t: Exp, x: int)
    requires FramesOk(P, s) && Respects(P, t) && Fits(P, s, t) && RightTight(P, t, x)
    ensures var (s', t') := Reduce(P, s, t, x);
            && FramesOk(P, s') && Respects(P, t') && Fits(P, s', t') && RightTight(P, t', x)
            && Read(s') + InOrder(t') == Read(s) + InOrder(t)
            && (s' == [] || P.left(s'[|s'| - 1].node) <= x)
    decreases |s|
  {
    hide Fits, FramesOk, InOrder, Read, Respects;
    if s != [] && P.left(s[|s| - 1].node) > x {
      var f := s[|s| - 1];
      LastTight(P, s);
      JoinOk(P, s, t);
      assert RightTight(P, Bin(f.node, f.left, t), x);
      ReduceOk(P, s[..|s| - 1], Bin(f.node, f.left, t), x);
    }
  }

  lemma PushOk(P: Prec, s: seq<Open>, e: int, o: int)
    requires FramesOk(P, s)
    ensures FramesOk(P, Push(P, s, e, o)) && Read(Push(P, s, e, o)) == Read(s) + [e, o]
  {
    ReduceOk(P, s, Elem(e), P.right(o));
    var (s', t) := Reduce(P, s, Elem(e), P.right(o));
    var r := s' + [Open(o, t)];
    assert r[..|r| - 1] == s';
    assert Read(s) + [e, o] == Read(s) + InOrder(Elem(e)) + [o];
  }

  lemma {:induction false} CloseOk(P: Prec, s: seq<Open>, t: Exp)
    requires FramesOk(P, s) && Respects(P, t) && Fits(P, s, t)
    ensures Respects(P, Close(s, t)) && InOrder(Close(s, t)) == Read(s) + InOrder(t)
    decreases |s|
  {
    hide Fits, FramesOk, InOrder, Respects, RightTight;
    if s != [] {
      var f := s[|s| - 1];
      LastTight(P, s);
      JoinOk(P, s, t);
      CloseOk(P, s[..|s| - 1], Bin(f.node, f.left, t));
    } else {
      assert Read(s) + InOrder(t) == InOrder(t);
    }
  }

  lemma ParseStep(P: Prec, s: seq<Open>, w: seq<int>)
    requires |w| % 2 == 1 && |w| >= 3
    ensures |w[2..]| % 2 == 1 && Parse(P, s, w) == Parse(P, Push(P, s, w[0], w[1]), w[2..])
  {
  }

  lemma {:induction false} ParseOk(P: Prec, s: seq<Open>, w: seq<int>)
    requires FramesOk(P, s) && |w| % 2 == 1
    ensures Respects(P, Parse(P, s, w)) && InOrder(Parse(P, s, w)) == Read(s) + w
    decreases |w|
  {
    hide Close, FramesOk, Push, Read, RightTight;
    if |w| == 1 {
      assert Respects(P, Elem(w[0])) && Fits(P, s, Elem(w[0]));
      CloseOk(P, s, Elem(w[0]));
      assert Parse(P, s, w) == Close(s, Elem(w[0])) && InOrder(Elem(w[0])) == [w[0]] == w;
    } else {
      PushOk(P, s, w[0], w[1]);
      ParseStep(P, s, w);
      ParseOk(P, Push(P, s, w[0], w[1]), w[2..]);
      assert Read(s) + w == Read(s) + [w[0], w[1]] + w[2..];
    }
  }

  // ------------------------------------------------------------------ uniqueness

  /** The operators down the right side of t, with their left operands. */
  function Spine(t: Exp): (s: seq<Open>) {
    if t.Elem? then [] else [Open(t.node, t.left)] + Spine(t.right)
  }

  function Last(t: Exp): int {
    if t.Elem? then t.node else Last(t.right)
  }

  lemma {:induction false} InOrderOdd(t: Exp)
    ensures |InOrder(t)| % 2 == 1
  {
    if t.Bin? {
      InOrderOdd(t.left);
      InOrderOdd(t.right);
    }
  }

  /** Closing the right side of t gives t. */
  lemma {:induction false} CloseSpine(s: seq<Open>, t: Exp)
    ensures Close(s + Spine(t), Elem(Last(t))) == Close(s, t)
    decreases t
  {
    if t.Bin? {
      var s1 := s + [Open(t.node, t.left)];
      assert s + Spine(t) == s1 + Spine(t.right);
      CloseSpine(s1, t.right);
      assert s1[..|s1| - 1] == s;
    } else {
      assert s + Spine(t) == s;
    }
  }

  /** All of t's right side is reduced when all of it binds more tightly. */
  lemma {:induction false} ReduceSpine(P: Prec, s: seq<Open>, t: Exp, x: int)
    requires RightTight(P, t, x)
    ensures Reduce(P, s + Spine(t), Elem(Last(t)), x) == Reduce(P, s, t, x)
    decreases t
  {
    if t.Bin? {
      var s1 := s + [Open(t.node, t.left)];
      assert s + Spine(t) == s1 + Spine(t.right);
      ReduceSpine(P, s1, t.right, x);
      assert s1[..|s1| - 1] == s;
    } else {
      assert s + Spine(t) == s;
    }
  }

  lemma RespectsParts(P: Prec, s: seq<Open>, t: Exp)
    requires Respects(P, t) && Fits(P, s, t) && t.Bin?
    ensures Respects(P, t.left) && Fits(P, s, t.left) && RightTight(P, t.left, P.right(t.node))
    ensures Respects(P, t.right) && Fits(P, s + [Open(t.node, t.left)], t.right)
    ensures s == [] || P.left(s[|s| - 1].node) <= P.right(t.node)
    ensures s + [Open(t.node, t.left)] + Spine(t.right) == s + Spine(t) && Last(t) == Last(t.right)
    ensures InOrder(t) == InOrder(t.left) + [t.node] + InOrder(t.right)
  {
  }

  /** After t's left operand the operator at t's root is pushed with it. */
  lemma PushLeft(P: Prec, s: seq<Open>, t: Exp)
    requires Respects(P, t) && Fits(P, s, t) && t.Bin?
    ensures Push(P, s + Spine(t.left), Last(t.left), t.node) == s + [Open(t.node, t.left)]
  {
    hide Fits, InOrder, Last, Respects, RightTight, Spine;
    RespectsParts(P, s, t);
    ReduceSpine(P, s, t.left, P.right(t.node));
  }

  /** Reading a tree that respects the precedences builds its right side. */
  lemma {:induction false} Replay(P: Prec, s: seq<Open>, t: Exp, rest: seq<int>)
    requires Respects(P, t) && Fits(P, s, t) && |rest| % 2 == 0
    ensures |InOrder(t) + rest| % 2 == 1
    ensures Parse(P, s, InOrder(t) + rest) == Parse(P, s + Spine(t), [Last(t)] + rest)
    decreases t
  {
    hide Fits, Parse, Push, Respects, RightTight;
    InOrderOdd(t);
    if t.Bin? {
      InOrderOdd(t.left);
      InOrderOdd(t.right);
      RespectsParts(P, s, t);
      var rest1 := [t.node] + InOrder(t.right) + rest;
      assert InOrder(t) + rest == InOrder(t.left) + rest1;
      Replay(P, s, t.left, rest1);
      var w, s1 := [Last(t.left)] + rest1, s + [Open(t.node, t.left)];
      assert w[2..] == InOrder(t.right) + rest && w[0] == Last(t.left) && w[1] == t.node;
      PushLeft(P, s, t);
      ParseStep(P, s + Spine(t.left), w);
      Replay(P, s1, t.right, rest);
    } else {
      assert s + Spine(t) == s && InOrder(t) == [Last(t)];
    }
  }

  /** The algorithm builds the tree that respects the precedences, and there is
      no other. */
  lemma PrecedenceTree(P: Prec, w: seq<int>, t: Exp)
    requires |w| % 2 == 1
    ensures t == Parse(P, [], w) <==> Respects(P, t) && InOrder(t) == w
  {
    ParseOk(P, [], w);
    assert Read([]) + w == w;
    if Respects(P, t) && InOrder(t) == w {
      Replay(P, [], t, []);
      assert InOrder(t) + [] == w && [] + Spine(t) == Spine(t) && [Last(t)] + [] == [Last(t)];
      CloseSpine([], t);
    }
  }

  /** u is t or a part of it. */
  predicate Part(u: Exp, t: Exp) {
    u == t || (t.Bin? && (Part(u, t.left) || Part(u, t.right)))
  }

  lemma {:induction false} PartRespects(P: Prec, u: Exp, t: Exp)
    requires Respects(P, t) && Part(u, t)
    ensures Respects(P, u)
    decreases t
  {
    if u != t {
      if Part(u, t.left) {
        PartRespects(P, u, t.left);
      } else {
        PartRespects(P, u, t.right);
      }
    }
  }

  /** An operator below another on its left binds more tightly than that one; one
      on its right at least as tightly. */
  lemma SonsBind(P: Prec, w: seq<int>, u: Exp)
    requires |w| % 2 == 1 && Part(u, Parse(P, [], w)) && u.Bin?
    ensures u.left.Bin? ==> P.left(u.left.node) > P.right(u.node)
    ensures u.right.Bin? ==> P.left(u.node) <= P.right(u.right.node)
  {
    ParseOk(P, [], w);
    PartRespects(P, u, Parse(P, [], w));
  }

  lemma OneOperator(P: Prec, a: int, x: int, b: int)
    ensures Respects(P, Bin(x, Elem(a), Elem(b))) && InOrder(Bin(x, Elem(a), Elem(b))) == [a, x, b]
    ensures forall y :: RightTight(P, Bin(x, Elem(a), Elem(b)), y) <==> P.left(x) > y
    ensures forall y :: LeftTight(P, Bin(x, Elem(a), Elem(b)), y) <==> P.right(x) >= y
  {
    var l, r := Elem(a), Elem(b);
    assert Respects(P, l) && Respects(P, r) && RightTight(P, l, P.right(x)) && LeftTight(P, r, P.left(x));
  }

  /** Of two operators the first has the middle operand if its left precedence
      is higher than the second one's right precedence. */
  lemma TwoOperators(P: Prec, a: int, x: int, b: int, y: int, c: int)
    ensures P.left(x) > P.right(y) ==> Parse(P, [], [a, x, b, y, c]) == Bin(y, Bin(x, Elem(a), Elem(b)), Elem(c))
    ensures P.left(x) <= P.right(y) ==> Parse(P, [], [a, x, b, y, c]) == Bin(x, Elem(a), Bin(y, Elem(b), Elem(c)))
  {
    OneOperator(P, a, x, b);
    OneOperator(P, b, y, c);
    var l, r, w := Bin(x, Elem(a), Elem(b)), Bin(y, Elem(b), Elem(c)), [a, x, b, y, c];
    if P.left(x) > P.right(y) {
      var t := Bin(y, l, Elem(c));
      assert InOrder(t) == InOrder(l) + [y] + [c] == w;
      assert Respects(P, t);
      PrecedenceTree(P, w, t);
    } else {
      var t := Bin(x, Elem(a), r);
      assert InOrder(t) == [a] + [x] + InOrder(r) == w;
      assert Respects(P, t);
      PrecedenceTree(P, w, t);
    }
  }
}
