/** Expression trees as the compiler keeps them: nodes linked to their father,
    first son and next sibling, rebuilt in place as operators are read. */
module ExprTree {
  import opened Sequences
  import opened Precedence

  /** The links of all nodes.  Node 0 is no node. */
  datatype Links = Links(father: seq<int>, lson: seq<int>, rsib: seq<int>, sons: seq<int>)

  predicate Even(S: Links) {
    |S.father| == |S.lson| == |S.rsib| == |S.sons|
  }

  predicate IsNode(S: Links, n: int) {
    Even(S) && 0 < n < |S.father|
  }

  /** The tree t hangs below node fa. */
  ghost predicate Rep(S: Links, t: Exp, fa: int) {
    && IsNode(S, t.node) && S.father[t.node] == fa
    && (t.Bin? ==>
          && Rep(S, t.left, t.node) && Rep(S, t.right, t.node)
          && S.lson[t.node] == t.left.node && S.rsib[t.left.node] == t.right.node && S.rsib[t.right.node] == 0
          && S.sons[t.node] == 2)
  }

  function FatherOf(s: seq<Open>, i: int): int
    requires 0 <= i <= |s|
  {
    if i == 0 then 0 else s[i - 1].node
  }

  /** Operator i and its left operand; right is its right son, if any. */
  ghost predicate FrameAt(S: Links, s: seq<Open>, i: int, right: int)
    requires 0 <= i < |s|
  {
    && IsNode(S, s[i].node) && S.father[s[i].node] == FatherOf(s, i) && S.rsib[s[i].node] == 0
    && Rep(S, s[i].left, s[i].node) && S.lson[s[i].node] == s[i].left.node
    && S.rsib[s[i].left.node] == right && S.sons[s[i].node] == if right == 0 then 1 else 2
  }

  function RightOf(s: seq<Open>, i: int, last: int): int
    requires 0 <= i < |s|
  {
    if i + 1 < |s| then s[i + 1].node else last
  }

  /** The operators that still lack their right operand; the last one has, for
      now, the right son last. */
  ghost predicate Frames(S: Links, s: seq<Open>, last: int) {
    Even(S) && forall i :: 0 <= i < |s| ==> FrameAt(S, s, i, RightOf(s, i, last))
  }

  /** t is the right operand of the last operator, or the whole tree. */
  ghost predicate Hanging(S: Links, s: seq<Open>, t: Exp) {
    Frames(S, s, t.node) && Rep(S, t, FatherOf(s, |s|)) && S.rsib[t.node] == 0 && Distinct(Read(s) + InOrder(t))
  }

  /** A node that is in no tree yet. */
  ghost predicate Loose(S: Links, n: int) {
    IsNode(S, n) && S.father[n] == 0 && S.rsib[n] == 0
  }

  // ------------------------------------------------------------------ the frame

  /** The links within t are the same. */
  ghost predicate Untouched(S: Links, S': Links, t: Exp) {
    Even(S) && Even(S') && |S'.father| == |S.father| && forall n :: n in InOrder(t) && IsNode(S, n) ==>
      && S'.father[n] == S.father[n] && S'.lson[n] == S.lson[n] && S'.sons[n] == S.sons[n]
      && (n != t.node ==> S'.rsib[n] == S.rsib[n])
  }

  lemma NodeIn(t: Exp)
    ensures t.node in InOrder(t)
    ensures t.Bin? ==> forall n :: n in InOrder(t) <==> n in InOrder(t.left) || n in InOrder(t.right) || n == t.node
  {
  }

  lemma DistinctParts(t: Exp)
    requires Distinct(InOrder(t)) && t.Bin?
    ensures Distinct(InOrder(t.left)) && Distinct(InOrder(t.right))
    ensures forall n :: n in InOrder(t.left) ==> n != t.node && n !in InOrder(t.right)
    ensures t.node !in InOrder(t.right)
  {
    var a, b, w := InOrder(t.left), InOrder(t.right), InOrder(t);
    assert w == a + [t.node] + b;
    assert forall i :: 0 <= i < |a| ==> w[i] == a[i];
    assert forall i :: 0 <= i < |b| ==> w[|a| + 1 + i] == b[i];
    assert w[|a|] == t.node;
  }

  lemma {:induction false} RepSame(S: Links, S': Links, t: Exp, fa: int)
    requires Rep(S, t, fa) && Untouched(S, S', t) && Distinct(InOrder(t))
    ensures Rep(S', t, fa)
    decreases t
  {
    NodeIn(t);
    if t.Bin? {
      DistinctParts(t);
      NodeIn(t.left);
      NodeIn(t.right);
      RepSame(S, S', t.left, t.node);
      RepSame(S, S', t.right, t.node);
    }
  }

  // ----------------------------------------------------------- who is where

  /** Node n belongs to operator i or to its left operand. */
  predicate InFrame(s: seq<Open>, i: int, n: int) {
    0 <= i < |s| && (n == s[i].node || n in InOrder(s[i].left))
  }

  lemma {:induction false} ReadHas(s: seq<Open>, i: int, n: int)
    requires InFrame(s, i, n)
    ensures n in Read(s)
    decreases |s|
  {
    if i < |s| - 1 {
      ReadHas(s[..|s| - 1], i, n);
    }
  }

  lemma DistinctSum(a: seq<int>, b: seq<int>)
    requires Distinct(a + b)
    ensures Distinct(a) && Distinct(b) && forall n :: n in a ==> n !in b
  {
    var w := a + b;
    assert forall i :: 0 <= i < |a| ==> w[i] == a[i];
    assert forall i :: 0 <= i < |b| ==> w[|a| + i] == b[i];
  }

  /** Operators and their left operands share no node. */
  lemma {:induction false} Apart(s: seq<Open>, i: int, j: int, n: int)
    requires Distinct(Read(s)) && InFrame(s, i, n) && InFrame(s, j, n)
    ensures i == j && Distinct(InOrder(s[i].left)) && (n == s[i].node ==> n !in InOrder(s[i].left))
    decreases |s|
  {
    var last := |s| - 1;
    var head, f := s[..last], s[last];
    assert Read(s) == Read(head) + (InOrder(f.left) + [f.node]);
    DistinctSum(Read(head), InOrder(f.left) + [f.node]);
    DistinctSum(InOrder(f.left), [f.node]);
    if i < last {
      ReadHas(head, i, n);
    }
    if j < last {
      ReadHas(head, j, n);
    }
    if i < last && j < last {
      Apart(head, i, j, n);
    }
  }

  /** Changing links of nodes outside operator i and its left operand, or the
      next sibling of that operand, leaves the operand alone. */
  ghost predicate KeepsFrame(S: Links, S': Links, s: seq<Open>, i: int)
    requires 0 <= i < |s|
  {
    && Untouched(S, S', s[i].left) && IsNode(S, s[i].node) && IsNode(S', s[i].node)
    && S'.father[s[i].node] == S.father[s[i].node] && S'.rsib[s[i].node] == S.rsib[s[i].node]
    && S'.lson[s[i].node] == S.lson[s[i].node]
  }

  lemma FrameSame(S: Links, S': Links, s: seq<Open>, s': seq<Open>, i: int, right: int, right': int)
    requires 0 <= i < |s| && i < |s'| && s'[..i + 1] == s[..i + 1] && Distinct(Read(s))
    requires FrameAt(S, s, i, right) && KeepsFrame(S, S', s, i)
    requires S'.rsib[s[i].left.node] == right' && S'.sons[s[i].node] == if right' == 0 then 1 else 2
    ensures FrameAt(S', s', i, right')
  {
    assert s'[i] == s'[..i + 1][i] && s[i] == s[..i + 1][i];
    assert i > 0 ==> s'[i - 1] == s'[..i + 1][i - 1] && s[i - 1] == s[..i + 1][i - 1];
    Apart(s, i, i, s[i].node);
    RepSame(S, S', s[i].left, s[i].node);
    NodeIn(s[i].left);
  }

  /** Only links of the nodes in w, and the next sibling of x, differ. */
  ghost predicate OnlyAt(S: Links, S': Links, w: set<int>, x: int) {
    && Even(S) && Even(S') && |S'.father| == |S.father|
    && forall n :: IsNode(S, n) && n !in w ==>
         && S'.father[n] == S.father[n] && S'.lson[n] == S.lson[n]
         && S'.sons[n] == S.sons[n] && (n != x ==> S'.rsib[n] == S.rsib[n])
  }

  lemma KeepsOther(S: Links, S': Links, s: seq<Open>, i: int, w: set<int>, x: int, right: int)
    requires OnlyAt(S, S', w, x) && 0 <= i < |s| && FrameAt(S, s, i, right)
    requires forall n :: n in w ==> !InFrame(s, i, n)
    requires InFrame(s, i, x) ==> x == s[i].left.node && x != s[i].node
    ensures KeepsFrame(S, S', s, i)
    ensures S'.sons[s[i].node] == S.sons[s[i].node]
    ensures x != s[i].left.node ==> S'.rsib[s[i].left.node] == S.rsib[s[i].left.node]
  {
    NodeIn(s[i].left);
    assert InFrame(s, i, s[i].node) && InFrame(s, i, s[i].left.node);
    forall n | n in InOrder(s[i].left) && IsNode(S, n)
      ensures n !in w && (n != s[i].left.node ==> n != x)
    {
      assert InFrame(s, i, n);
    }
  }

  // ------------------------------------------------------------- the surgery

  /** addsib: a2 becomes the next sibling of a1. */
  function AddSib(S: Links, a1: int, a2: int): (S': Links)
    requires IsNode(S, a1) && IsNode(S, a2) && 0 <= S.father[a1] < |S.father|
  {
    Links(S.father[a2 := S.father[a1]], S.lson, S.rsib[a2 := S.rsib[a1]][a1 := a2],
          S.sons[S.father[a1] := S.sons[S.father[a1]] + 1])
  }

  /** addson: a2 becomes the first son of a1. */
  function AddSon(S: Links, a1: int, a2: int): (S': Links)
    requires IsNode(S, a1) && IsNode(S, a2)
  {
    Links(S.father[a2 := a1], S.lson[a1 := a2], S.rsib[a2 := S.lson[a1]], S.sons[a1 := S.sons[a1] + 1])
  }

  /** insert: a2 takes the place of a1, whose sibling before it is y, and a1
      becomes its first son. */
  function Insert(S: Links, a1: int, a2: int, y: int): (S': Links)
    requires IsNode(S, a1) && IsNode(S, a2) && IsNode(S, y)
  {
    Links(S.father[a2 := S.father[a1]][a1 := a2], S.lson[a2 := a1], S.rsib[y := a2], S.sons[a2 := S.sons[a2] + 1])
  }

  lemma AddSibOnly(S: Links, a1: int, a2: int)
    requires IsNode(S, a1) && IsNode(S, a2) && 0 <= S.father[a1] < |S.father|
    ensures OnlyAt(S, AddSib(S, a1, a2), {a2, S.father[a1]}, a1)
  {
  }

  lemma AddSonOnly(S: Links, a1: int, a2: int)
    requires IsNode(S, a1) && IsNode(S, a2)
    ensures OnlyAt(S, AddSon(S, a1, a2), {a1, a2}, a2)
  {
  }

  lemma InsertOnly(S: Links, a1: int, a2: int, y: int)
    requires IsNode(S, a1) && IsNode(S, a2) && IsNode(S, y)
    ensures OnlyAt(S, Insert(S, a1, a2, y), {a1, a2}, y)
  {
  }

  /** A new operator. */
  ghost predicate Fresh(S: Links, n: int) {
    Loose(S, n) && S.lson[n] == 0 && S.sons[n] == 0
  }

  /** The last operator, and its left operand as the place where the right one
      goes. */
  lemma LastLeft(S: Links, s: seq<Open>, right: int)
    requires Frames(S, s, right) && s != []
    ensures var f := s[|s| - 1];
            && FrameAt(S, s, |s| - 1, right) && IsNode(S, f.left.node) && IsNode(S, f.node)
            && S.father[f.left.node] == f.node && S.rsib[f.left.node] == right
            && InFrame(s, |s| - 1, f.node) && InFrame(s, |s| - 1, f.left.node)
  {
    NodeIn(s[|s| - 1].left);
    assert FrameAt(S, s, |s| - 1, RightOf(s, |s| - 1, right));
  }

  lemma Tokens(s: seq<Open>, e: int)
    requires Distinct(Read(s)) && e !in Read(s)
    ensures forall i :: 0 <= i < |s| ==> !InFrame(s, i, e)
  {
    hide Read, InFrame, Distinct;
    forall i | 0 <= i < |s|
      ensures !InFrame(s, i, e)
    {
      if InFrame(s, i, e) {
        ReadHas(s, i, e);
      }
    }
  }

  lemma DistinctMore(w: seq<int>, e: int)
    requires Distinct(w) && e !in w
    ensures Distinct(w + [e])
  {
  }

  lemma FramesAt(S: Links, s: seq<Open>, last: int, i: int)
    requires Frames(S, s, last) && 0 <= i < |s|
    ensures Even(S) && FrameAt(S, s, i, RightOf(s, i, last))
  {
  }

  /** Where node x of the last operator can be. */
  lemma OnlyLast(s: seq<Open>, x: int)
    requires Distinct(Read(s)) && s != [] && InFrame(s, |s| - 1, x)
    ensures forall i :: 0 <= i < |s| - 1 ==> !InFrame(s, i, x)
  {
    hide Read, InFrame, Distinct, InOrder;
    forall i | 0 <= i < |s| - 1
      ensures !InFrame(s, i, x)
    {
      if InFrame(s, i, x) {
        Apart(s, i, |s| - 1, x);
      }
    }
  }

  /** Operand e is the right operand of the last operator. */
  lemma Completed(S: Links, S': Links, s: seq<Open>, e: int)
    requires Frames(S, s, 0) && s != [] && Loose(S, e) && Distinct(Read(s)) && e !in Read(s)
    requires var f := s[|s| - 1];
             IsNode(S, f.left.node) && 0 <= S.father[f.left.node] < |S.father| && S' == AddSib(S, f.left.node, e)
    ensures Hanging(S', s, Elem(e))
  {
    hide AddSib, Distinct, Even, FatherOf, FrameAt, InFrame, InOrder, IsNode, Loose, Read, Rep;
    var k := |s| - 1;
    LastLeft(S, s, 0);
    forall i | 0 <= i < |s|
      ensures FrameAt(S', s, i, RightOf(s, i, e))
    {
      FramesAt(S, s, 0, i);
      if i < k {
        CompletedAt(S, S', s, e, i);
      } else {
        CompletedLast(S, S', s, e);
      }
    }
    DistinctMore(Read(s), e);
    ReadHas(s, k, s[k].left.node);
    CompletedHere(S, S', s, e);
  }

  lemma CompletedHere(S: Links, S': Links, s: seq<Open>, e: int)
    requires s != [] && Loose(S, e) && IsNode(S, s[|s| - 1].left.node) && S.father[s[|s| - 1].left.node] == s[|s| - 1].node
    requires IsNode(S, s[|s| - 1].node) && S' == AddSib(S, s[|s| - 1].left.node, e) && S.rsib[s[|s| - 1].left.node] == 0
    requires e != s[|s| - 1].left.node || e !in Read(s)
    requires s[|s| - 1].left.node in Read(s)
    ensures Even(S') && Rep(S', Elem(e), FatherOf(s, |s|)) && IsNode(S', e) && S'.rsib[e] == 0 && InOrder(Elem(e)) == [e]
  {
  }

  lemma CompletedAt(S: Links, S': Links, s: seq<Open>, e: int, i: int)
    requires s != [] && Loose(S, e) && Distinct(Read(s)) && e !in Read(s) && Frames(S, s, 0)
    requires IsNode(S, s[|s| - 1].left.node) && S.father[s[|s| - 1].left.node] == s[|s| - 1].node && IsNode(S, s[|s| - 1].node)
    requires S' == AddSib(S, s[|s| - 1].left.node, e) && 0 <= i < |s| - 1 && FrameAt(S, s, i, RightOf(s, i, 0))
    ensures FrameAt(S', s, i, RightOf(s, i, e))
  {
    hide AddSib, Distinct, FrameAt, Frames, InFrame, IsNode, KeepsFrame, OnlyAt, Read;
    var k := |s| - 1;
    var x, f := s[k].left.node, s[k].node;
    assert RightOf(s, i, e) == RightOf(s, i, 0);
    LastLeft(S, s, 0);
    Tokens(s, e);
    OnlyLast(s, x);
    OnlyLast(s, f);
    AddSibOnly(S, x, e);
    KeepsOther(S, S', s, i, {e, f}, x, RightOf(s, i, 0));
    LeftNode(s, i);
    FrameRest(S, s, i, RightOf(s, i, 0));
    FrameSame(S, S', s, s, i, RightOf(s, i, 0), RightOf(s, i, e));
  }

  lemma LeftNode(s: seq<Open>, i: int)
    requires 0 <= i < |s|
    ensures InFrame(s, i, s[i].left.node) && InFrame(s, i, s[i].node)
  {
    NodeIn(s[i].left);
  }

  lemma FrameRest(S: Links, s: seq<Open>, i: int, right: int)
    requires 0 <= i < |s| && FrameAt(S, s, i, right)
    ensures IsNode(S, s[i].left.node) && IsNode(S, s[i].node)
    ensures S.rsib[s[i].left.node] == right && S.sons[s[i].node] == if right == 0 then 1 else 2
  {
  }

  lemma CompletedLast(S: Links, S': Links, s: seq<Open>, e: int)
    requires s != [] && Loose(S, e) && Distinct(Read(s)) && e !in Read(s) && Frames(S, s, 0)
    requires IsNode(S, s[|s| - 1].left.node) && S.father[s[|s| - 1].left.node] == s[|s| - 1].node && IsNode(S, s[|s| - 1].node)
    requires S' == AddSib(S, s[|s| - 1].left.node, e)
    ensures FrameAt(S', s, |s| - 1, RightOf(s, |s| - 1, e))
  {
    hide AddSib, Distinct, FrameAt, Frames, InFrame, InOrder, IsNode, KeepsFrame, Loose, Read;
    var k := |s| - 1;
    LastLeft(S, s, 0);
    Tokens(s, e);
    FrameRest(S, s, k, 0);
    Apart(s, k, k, s[k].node);
    KeepsLast(S, S', s, e);
    FrameSame(S, S', s, s, k, 0, e);
  }

  lemma KeepsLast(S: Links, S': Links, s: seq<Open>, e: int)
    requires s != [] && Loose(S, e) && FrameAt(S, s, |s| - 1, 0) && !InFrame(s, |s| - 1, e)
    requires s[|s| - 1].node !in InOrder(s[|s| - 1].left)
    requires IsNode(S, s[|s| - 1].left.node) && S.father[s[|s| - 1].left.node] == s[|s| - 1].node && IsNode(S, s[|s| - 1].node)
    requires S' == AddSib(S, s[|s| - 1].left.node, e)
    ensures KeepsFrame(S, S', s, |s| - 1) && e != 0
    ensures IsNode(S', s[|s| - 1].left.node) && S'.rsib[s[|s| - 1].left.node] == e
    ensures S'.sons[s[|s| - 1].node] == 2
  {
    hide Rep;
    NodeIn(s[|s| - 1].left);
  }

  /** The last operator with its operands is itself a right operand. */
  lemma Climbed(S: Links, s: seq<Open>, t: Exp)
    requires Hanging(S, s, t) && s != []
    ensures var k := |s| - 1; Hanging(S, s[..k], Bin(s[k].node, s[k].left, t))
  {
    var k := |s| - 1;
    var f, r := s[k], s[..k];
    var u := Bin(f.node, f.left, t);
    assert FrameAt(S, s, k, RightOf(s, k, t.node));
    forall i | 0 <= i < |r|
      ensures FrameAt(S, r, i, RightOf(r, i, f.node))
    {
      assert FrameAt(S, s, i, RightOf(s, i, t.node));
    }
    assert Read(s) + InOrder(t) == Read(r) + InOrder(u);
  }

  // -------------------------------------------------------- a further operator

  /** Links of t change only at its root: its father, and what follows it. */
  ghost predicate Rehung(S: Links, S': Links, t: Exp, fa: int) {
    && IsNode(S, t.node) && IsNode(S', t.node) && |S'.father| == |S.father| && S'.father[t.node] == fa
    && S'.lson[t.node] == S.lson[t.node] && S'.sons[t.node] == S.sons[t.node]
    && forall n :: n in InOrder(t) && IsNode(S, n) && n != t.node ==>
      && S'.father[n] == S.father[n] && S'.lson[n] == S.lson[n] && S'.sons[n] == S.sons[n] && S'.rsib[n] == S.rsib[n]
  }

  lemma RepRehung(S: Links, S': Links, t: Exp, fa: int, fa': int)
    requires Rep(S, t, fa) && Rehung(S, S', t, fa') && Distinct(InOrder(t))
    ensures Rep(S', t, fa')
  {
    NodeIn(t);
    if t.Bin? {
      DistinctParts(t);
      NodeIn(t.left);
      NodeIn(t.right);
      RepSame(S, S', t.left, t.node);
      RepSame(S, S', t.right, t.node);
    }
  }

  /** Operator o with left operand t comes after the frames s. */
  lemma Grown(S: Links, S': Links, s: seq<Open>, o: int, t: Exp, fa: int)
    requires Frames(S, s, o) && Fresh'(S, o, FatherOf(s, |s|)) && Rep(S, t, fa)
    requires Distinct(Read(s) + InOrder(t) + [o]) && S' == AddSon(S, o, t.node)
    ensures Frames(S', s + [Open(o, t)], 0)
  {
    hide Distinct, FatherOf, FrameAt, InFrame, InOrder, OnlyAt, Read, RightOf;
    var s' := s + [Open(o, t)];
    GrownApart(s, o, t);
    assert IsNode(S, o) && IsNode(S, t.node);
    AddSonOnly(S, o, t.node);
    forall i | 0 <= i < |s'|
      ensures FrameAt(S', s', i, RightOf(s', i, 0))
    {
      if i < |s| {
        FramesAt(S, s, o, i);
        RightGrown(s, o, t, i);
        Kept(S, S', s, s', i, {o, t.node}, t.node, RightOf(s, i, o));
      } else {
        GrownLast(S, S', s, o, t, fa);
      }
    }
    assert Even(S');
  }

  /** An operator that is linked to its father but has no son. */
  ghost predicate Fresh'(S: Links, n: int, fa: int) {
    IsNode(S, n) && S.father[n] == fa && S.rsib[n] == 0 && S.lson[n] == 0 && S.sons[n] == 0
  }

  lemma RightGrown(s: seq<Open>, o: int, t: Exp, i: int)
    requires 0 <= i < |s|
    ensures RightOf(s + [Open(o, t)], i, 0) == RightOf(s, i, o)
    ensures (s + [Open(o, t)])[..i + 1] == s[..i + 1]
  {
  }

  lemma Kept(S: Links, S': Links, s: seq<Open>, s': seq<Open>, i: int, w: set<int>, x: int, right: int)
    requires OnlyAt(S, S', w, x) && 0 <= i < |s| && i < |s'| && s'[..i + 1] == s[..i + 1] && FrameAt(S, s, i, right)
    requires Distinct(Read(s)) && !InFrame(s, i, x) && forall n :: n in w ==> !InFrame(s, i, n)
    ensures FrameAt(S', s', i, right)
  {
    hide Rep, Read, OnlyAt, InFrame, Distinct;
    KeepsOther(S, S', s, i, w, x, right);
    LeftNode(s, i);
    FrameRest(S, s, i, right);
    FrameSame(S, S', s, s', i, right, right);
  }

  lemma GrownApart(s: seq<Open>, o: int, t: Exp)
    requires Distinct(Read(s) + InOrder(t) + [o])
    ensures Distinct(Read(s)) && Distinct(InOrder(t)) && o !in InOrder(t) && t.node != o
    ensures forall i :: 0 <= i < |s| ==> !InFrame(s, i, o) && !InFrame(s, i, t.node)
  {
    hide Read, InOrder, InFrame, Distinct;
    DistinctSum(Read(s) + InOrder(t), [o]);
    DistinctSum(Read(s), InOrder(t));
    NodeIn(t);
    assert o !in Read(s) && t.node !in Read(s) by {
      assert o in [o];
    }
    Tokens(s, o);
    Tokens(s, t.node);
  }

  lemma GrownLast(S: Links, S': Links, s: seq<Open>, o: int, t: Exp, fa: int)
    requires Fresh'(S, o, FatherOf(s, |s|)) && Rep(S, t, fa) && Distinct(InOrder(t)) && o !in InOrder(t) && t.node != o
    requires S' == AddSon(S, o, t.node)
    ensures FrameAt(S', s + [Open(o, t)], |s|, RightOf(s + [Open(o, t)], |s|, 0))
  {
    var s' := s + [Open(o, t)];
    assert FatherOf(s', |s|) == FatherOf(s, |s|);
    RootNode(S, t, fa);
    assert Rehung(S, S', t, o) by {
      hide Rep, Distinct;
    }
    RepRehung(S, S', t, fa, o);
  }

  lemma RootNode(S: Links, t: Exp, fa: int)
    requires Rep(S, t, fa)
    ensures IsNode(S, t.node) && S.father[t.node] == fa
  {
  }

  /** Operator o takes the place of the last operator's right operand t, which
      becomes its left operand. */
  lemma Inserted(S: Links, S': Links, s: seq<Open>, o: int, t: Exp)
    requires Hanging(S, s, t) && s != [] && Fresh(S, o) && Distinct(Read(s) + InOrder(t) + [o])
    requires IsNode(S, t.node) && IsNode(S, s[|s| - 1].left.node) && S' == Insert(S, t.node, o, s[|s| - 1].left.node)
    ensures Frames(S', s + [Open(o, t)], 0)
  {
    hide Distinct, FatherOf, FrameAt, InFrame, InOrder, OnlyAt, Read, Rep;
    var s', k := s + [Open(o, t)], |s| - 1;
    GrownApart(s, o, t);
    LastLeft(S, s, t.node);
    OnlyLast(s, s[k].left.node);
    ReadHas(s, k, s[k].left.node);
    DistinctSum(Read(s), InOrder(t));
    assert IsNode(S, o);
    InsertOnly(S, t.node, o, s[k].left.node);
    forall i | 0 <= i < |s'|
      ensures FrameAt(S', s', i, RightOf(s', i, 0))
    {
      if i < k {
        FramesAt(S, s, t.node, i);
        RightGrown(s, o, t, i);
        assert RightOf(s, i, o) == RightOf(s, i, t.node);
        Kept(S, S', s, s', i, {t.node, o}, s[k].left.node, RightOf(s, i, o));
      } else if i == k {
        InsertedBefore(S, S', s, o, t);
      } else {
        InsertedLast(S, S', s, o, t);
      }
    }
    assert Even(S');
  }

  lemma InsertedBefore(S: Links, S': Links, s: seq<Open>, o: int, t: Exp)
    requires s != [] && IsNode(S, t.node) && IsNode(S, o) && IsNode(S, s[|s| - 1].left.node)
    requires FrameAt(S, s, |s| - 1, t.node) && Distinct(Read(s)) && S' == Insert(S, t.node, o, s[|s| - 1].left.node)
    requires forall i :: 0 <= i < |s| ==> !InFrame(s, i, o) && !InFrame(s, i, t.node)
    ensures FrameAt(S', s + [Open(o, t)], |s| - 1, RightOf(s + [Open(o, t)], |s| - 1, 0))
  {
    hide Distinct, FrameAt, InFrame, InOrder, KeepsFrame, OnlyAt, Read;
    var k := |s| - 1;
    var y := s[k].left.node;
    RightGrown(s, o, t, k);
    LeftNode(s, k);
    InsertOnly(S, t.node, o, y);
    Apart(s, k, k, s[k].node);
    NodeIn(s[k].left);
    KeepsOther(S, S', s, k, {t.node, o}, y, t.node);
    FrameRest(S, s, k, t.node);
    assert RightOf(s, k, o) == o;
    assert IsNode(S', y) && S'.rsib[y] == o && o != 0 && t.node != 0;
    FrameSame(S, S', s, s + [Open(o, t)], k, t.node, o);
  }

  lemma InsertedLast(S: Links, S': Links, s: seq<Open>, o: int, t: Exp)
    requires s != [] && Rep(S, t, FatherOf(s, |s|)) && S.rsib[t.node] == 0 && Fresh(S, o) && o != t.node
    requires Distinct(InOrder(t)) && o !in InOrder(t)
    requires IsNode(S, s[|s| - 1].left.node) && S' == Insert(S, t.node, o, s[|s| - 1].left.node)
    requires !InFrame(s, |s| - 1, o) && !InFrame(s, |s| - 1, t.node) && s[|s| - 1].left.node !in InOrder(t)
    ensures FrameAt(S', s + [Open(o, t)], |s|, RightOf(s + [Open(o, t)], |s|, 0))
  {
    var s', y := s + [Open(o, t)], s[|s| - 1].left.node;
    assert FatherOf(s', |s|) == FatherOf(s, |s|);
    RootNode(S, t, FatherOf(s, |s|));
    LeftNode(s, |s| - 1);
    assert Rehung(S, S', t, o) by {
      hide Rep, Distinct;
    }
    RepRehung(S, S', t, FatherOf(s, |s|), o);
  }

  /** One more node, linked to nothing. */
  function More(S: Links): (S': Links) {
    Links(S.father + [0], S.lson + [0], S.rsib + [0], S.sons + [0])
  }

  lemma {:induction false} RepMore(S: Links, t: Exp, fa: int)
    requires Rep(S, t, fa)
    ensures Rep(More(S), t, fa)
    decreases t
  {
    if t.Bin? {
      RepMore(S, t.left, t.node);
      RepMore(S, t.right, t.node);
    }
  }

  lemma FramesMore(S: Links, s: seq<Open>, last: int)
    requires Frames(S, s, last)
    ensures Frames(More(S), s, last) && (Even(S) && |S.father| > 0 ==> Fresh(More(S), |S.father|))
  {
    hide Rep;
    forall i | 0 <= i < |s|
      ensures FrameAt(More(S), s, i, RightOf(s, i, last))
    {
      assert FrameAt(S, s, i, RightOf(s, i, last));
      RepMore(S, s[i].left, s[i].node);
      RootNode(S, s[i].left, s[i].node);
    }
  }

  /** Sibling i of c is followed by the next, and is not a. */
  ghost predicate SiblingAt(S: Links, c: seq<int>, i: int, a: int)
    requires 0 <= i < |c| - 1
  {
    IsNode(S, c[i]) && S.rsib[c[i]] == c[i + 1] && c[i] != a
  }

  // -------------------------------------------------------- reading an expression

  /** The first i operands and operators; operator nodes are numbered from base. */
  function Woven(e: seq<int>, base: int, i: int): (w: seq<int>)
    requires 0 <= i <= |e|
    ensures |w| == 2 * i
    decreases i
  {
    if i == 0 then [] else Woven(e, base, i - 1) + [e[i - 1], base + i - 1]
  }

  /** The frames after the first i operands and operators. */
  function After(P: Prec, e: seq<int>, base: int, i: int): (s: seq<Open>)
    requires 0 <= i <= |e|
    decreases i
  {
    if i == 0 then [] else Push(P, After(P, e, base, i - 1), e[i - 1], base + i - 1)
  }

  /** All operands and operators of an expression. */
  function Sentence(e: seq<int>, base: int): (w: seq<int>)
    requires e != []
    ensures |w| % 2 == 1
  {
    Woven(e, base, |e| - 1) + [e[|e| - 1]]
  }

  lemma NoneRead(P: Prec)
    ensures Read([]) == [] && FramesOk(P, [])
  {
  }

  lemma {:induction false} AfterRead(P: Prec, e: seq<int>, base: int, i: int)
    requires 0 <= i <= |e|
    ensures Read(After(P, e, base, i)) == Woven(e, base, i) && FramesOk(P, After(P, e, base, i))
    decreases i
  {
    hide Push, FramesOk, Read;
    if i == 0 {
      NoneRead(P);
    } else {
      AfterRead(P, e, base, i - 1);
      PushOk(P, After(P, e, base, i - 1), e[i - 1], base + i - 1);
    }
  }

  /** The operands are distinct nodes below base. */
  ghost predicate Operands(e: seq<int>, base: int) {
    Distinct(e) && forall j :: 0 <= j < |e| ==> 0 < e[j] < base
  }

  /** Those from i on are in no tree yet. */
  ghost predicate Waiting(S: Links, e: seq<int>, i: int) {
    0 <= i && forall j :: i <= j < |e| ==> Loose(S, e[j])
  }

  lemma {:induction false} WovenHas(e: seq<int>, base: int, i: int, n: int)
    requires 0 <= i <= |e|
    ensures n in Woven(e, base, i) <==> (exists j :: 0 <= j < i && e[j] == n) || base <= n < base + i
    decreases i
  {
    if i > 0 {
      WovenHas(e, base, i - 1, n);
      if exists j :: 0 <= j < i && e[j] == n {
        var j :| 0 <= j < i && e[j] == n;
        assert j < i - 1 || n == e[i - 1];
      }
    }
  }

  lemma {:induction false} WovenDistinct(e: seq<int>, base: int, i: int)
    requires Operands(e, base) && 0 <= i <= |e|
    ensures Distinct(Woven(e, base, i))
    decreases i
  {
    if i > 0 {
      WovenDistinct(e, base, i - 1);
      WovenHas(e, base, i - 1, e[i - 1]);
      WovenHas(e, base, i - 1, base + i - 1);
    }
  }

  /** One step up. */
  lemma Up(S: Links, s: seq<Open>, t: Exp)
    requires Hanging(S, s, t) && s != []
    ensures var k := |s| - 1;
            var u := Bin(s[k].node, s[k].left, t);
            && Hanging(S, s[..k], u) && IsNode(S, t.node) && S.father[t.node] == s[k].node
            && IsNode(S, u.node) && S.father[u.node] == FatherOf(s[..k], k)
            && Read(s[..k]) + InOrder(u) == Read(s) + InOrder(t)
            && FatherOf(s, |s|) == s[k].node
  {
    hide Rep, Distinct;
    Climbed(S, s, t);
    var k := |s| - 1;
    RootNode(S, t, FatherOf(s, |s|));
    RootNode(S, Bin(s[k].node, s[k].left, t), FatherOf(s[..k], k));
  }

  lemma LeftUp(S: Links, s: seq<Open>, e: int)
    requires Hanging(S, s, Elem(e)) && s != []
    ensures IsNode(S, s[|s| - 1].left.node) && S.father[s[|s| - 1].left.node] == s[|s| - 1].node
    ensures InOrder(Elem(e)) == [e] && Bin(s[|s| - 1].node, s[|s| - 1].left, Elem(e)).node == s[|s| - 1].node
  {
    LastLeft(S, s, e);
  }

  lemma Lowest(S: Links, r: seq<Open>, t: Exp)
    requires Hanging(S, r, t)
    ensures forall i :: 0 <= i < |r| ==> r[i].node > 0
  {
    forall i | 0 <= i < |r|
      ensures r[i].node > 0
    {
      assert FrameAt(S, r, i, RightOf(r, i, t.node));
    }
  }

  lemma ReduceMore(P: Prec, s: seq<Open>, t: Exp, x: int)
    requires s != [] && P.left(s[|s| - 1].node) > x
    ensures Reduce(P, s, t, x) == Reduce(P, s[..|s| - 1], Bin(s[|s| - 1].node, s[|s| - 1].left, t), x)
  {
  }

  lemma ReduceDone(P: Prec, s: seq<Open>, t: Exp, x: int)
    requires s == [] || P.left(s[|s| - 1].node) <= x
    ensures Reduce(P, s, t, x) == (s, t)
  {
  }

  /** Only nodes of v have another father or sibling; what hangs below nodes
      before base is the same. */
  ghost predicate Spares(S: Links, S': Links, v: set<int>, base: int) {
    && Even(S) && Even(S') && |S.father| <= |S'.father|
    && forall n :: IsNode(S, n) ==>
         && (n !in v ==> S'.father[n] == S.father[n] && S'.rsib[n] == S.rsib[n])
         && (n < base ==> S'.lson[n] == S.lson[n] && S'.sons[n] == S.sons[n])
  }

  lemma SibSpares(S: Links, a1: int, a2: int, v: set<int>, base: int)
    requires IsNode(S, a1) && IsNode(S, a2) && base <= S.father[a1] < |S.father| && 0 <= S.father[a1] && a1 in v && a2 in v
    ensures Spares(S, AddSib(S, a1, a2), v, base) && |AddSib(S, a1, a2).father| == |S.father|
  {
  }

  lemma SonSpares(S: Links, a1: int, a2: int, v: set<int>, base: int)
    requires IsNode(S, a1) && IsNode(S, a2) && base <= a1 && a2 in v
    ensures Spares(S, AddSon(S, a1, a2), v, base)
  {
  }

  lemma InsertSpares(S: Links, a1: int, a2: int, y: int, v: set<int>, base: int)
    requires IsNode(S, a1) && IsNode(S, a2) && IsNode(S, y) && base <= a2 && a1 in v && a2 in v && y in v
    ensures Spares(S, Insert(S, a1, a2, y), v, base)
  {
  }

  lemma SparesTrans(S: Links, S': Links, S'': Links, v: set<int>, base: int)
    requires Spares(S, S', v, base) && Spares(S', S'', v, base)
    ensures Spares(S, S'', v, base)
  {
  }

  lemma SparesMore(S: Links, v: set<int>, base: int)
    requires Even(S)
    ensures Spares(S, More(S), v, base)
  {
  }

  lemma SparesLoose(S: Links, S': Links, v: set<int>, base: int, n: int)
    requires Spares(S, S', v, base) && Loose(S, n) && n !in v
    ensures Loose(S', n)
  {
  }

  /** The operators' nodes are not before base. */
  ghost predicate Operators(s: seq<Open>, base: int) {
    forall i :: 0 <= i < |s| ==> s[i].node >= base
  }

  lemma {:induction false} ReduceOperators(P: Prec, s: seq<Open>, t: Exp, x: int, base: int)
    requires Operators(s, base)
    ensures Operators(Reduce(P, s, t, x).0, base)
    decreases |s|
  {
    if s != [] && P.left(s[|s| - 1].node) > x {
      ReduceOperators(P, s[..|s| - 1], Bin(s[|s| - 1].node, s[|s| - 1].left, t), x, base);
    }
  }

  lemma {:induction false} AfterOperators(P: Prec, e: seq<int>, base: int, i: int)
    requires 0 <= i <= |e|
    ensures Operators(After(P, e, base, i), base)
    decreases i
  {
    hide Reduce;
    if i > 0 {
      AfterOperators(P, e, base, i - 1);
      ReduceOperators(P, After(P, e, base, i - 1), Elem(e[i - 1]), P.right(base + i - 1), base);
    }
  }

  lemma PushIs(P: Prec, s: seq<Open>, e: int, o: int, r: seq<Open>, t: Exp)
    requires Reduce(P, s, Elem(e), P.right(o)) == (r, t)
    ensures Push(P, s, e, o) == r + [Open(o, t)]
  {
  }

  /** A first operator, or one after operators that bind no more tightly. */
  lemma Shifted(S: Links, S1: Links, S2: Links, s: seq<Open>, e: int, o: int)
    requires Frames(S, s, 0) && s != [] && Loose(S, e) && Fresh(S, o) && Distinct(Read(s) + [e] + [o])
    requires IsNode(S, s[|s| - 1].left.node) && 0 <= S.father[s[|s| - 1].left.node] < |S.father|
    requires S1 == AddSib(S, s[|s| - 1].left.node, o) && IsNode(S1, o) && IsNode(S1, e) && S2 == AddSon(S1, o, e)
    ensures Frames(S2, s + [Open(o, Elem(e))], 0)
  {
    hide AddSon, Distinct, FrameAt, Frames, InFrame, Read;
    DistinctSum(Read(s) + [e], [o]);
    DistinctSum(Read(s), [e]);
    assert o !in Read(s) && o != e by {
      assert o in [o] && e in Read(s) + [e];
    }
    assert Loose(S, o);
    Completed(S, S1, s, o);
    assert Frames(S1, s, o);
    assert IsNode(S, e) && IsNode(S, o);
    LastLeft(S, s, 0);
    assert Fresh'(S1, o, FatherOf(s, |s|)) by {
      assert s[|s| - 1].left.node != o && s[|s| - 1].node != o by { ReadHas(s, |s| - 1, s[|s| - 1].left.node); ReadHas(s, |s| - 1, s[|s| - 1].node); }
    }
    assert Rep(S1, Elem(e), S1.father[e]);
    assert InOrder(Elem(e)) == [e];
    Grown(S1, S2, s, o, Elem(e), S1.father[e]);
  }

  lemma InWords(s: seq<Open>, v: set<int>)
    requires s != [] && forall n :: n in Read(s) ==> n in v
    ensures s[|s| - 1].node in v && s[|s| - 1].left.node in v
  {
    LeftNode(s, |s| - 1);
    ReadHas(s, |s| - 1, s[|s| - 1].node);
    ReadHas(s, |s| - 1, s[|s| - 1].left.node);
  }

  lemma FreshStill(S: Links, S1: Links, s: seq<Open>, e: int, o: int)
    requires s != [] && Fresh(S, o) && o !in Read(s) && o != e && IsNode(S, e)
    requires IsNode(S, s[|s| - 1].left.node) && S.father[s[|s| - 1].left.node] == s[|s| - 1].node && IsNode(S, s[|s| - 1].node)
    requires S1 == AddSib(S, s[|s| - 1].left.node, e)
    ensures Fresh(S1, o)
  {
    hide Read, InOrder, InFrame;
    LeftNode(s, |s| - 1);
    ReadHas(s, |s| - 1, s[|s| - 1].node);
    ReadHas(s, |s| - 1, s[|s| - 1].left.node);
  }

  lemma HangingRoot(S: Links, r: seq<Open>, t: Exp)
    requires Hanging(S, r, t)
    ensures IsNode(S, t.node) && S.father[t.node] == FatherOf(r, |r|) && Rep(S, t, FatherOf(r, |r|))
    ensures t.node < |S.rsib| && S.rsib[t.node] == 0
  {
    RootNode(S, t, FatherOf(r, |r|));
  }

  lemma LastHere(S: Links, r: seq<Open>, t: Exp)
    requires Hanging(S, r, t) && r != []
    ensures var f := r[|r| - 1];
            && IsNode(S, f.node) && FatherOf(r, |r|) == f.node && S.lson[f.node] == f.left.node
            && IsNode(S, f.left.node) && S.rsib[f.left.node] == t.node && f.left.node != t.node
  {
    var k := |r| - 1;
    LastLeft(S, r, t.node);
    DistinctSum(Read(r), InOrder(t));
    ReadHas(r, k, r[k].left.node);
    NodeIn(t);
  }

  lemma NoFrames(S: Links, s: seq<Open>)
    requires Frames(S, s, 0) && (s != [] ==> s[|s| - 1].left.node == 0)
    ensures s == []
  {
    if s != [] {
      LastLeft(S, s, 0);
    }
  }

  lemma CloseMore(s: seq<Open>, t: Exp)
    requires s != []
    ensures Close(s, t) == Close(s[..|s| - 1], Bin(s[|s| - 1].node, s[|s| - 1].left, t))
  {
  }

  /** The precedences of operator nodes numbered from base. */
  function OpPrec(prec: Prec, ops: seq<int>, base: int): (P: Prec) {
    Prec(n => if 0 <= n - base < |ops| then prec.left(ops[n - base]) else 0,
         n => if 0 <= n - base < |ops| then prec.right(ops[n - base]) else 0)
  }

  lemma OpPrecAt(prec: Prec, ops: seq<int>, base: int, i: int)
    requires 0 <= i < |ops|
    ensures OpPrec(prec, ops, base).left(base + i) == prec.left(ops[i])
    ensures OpPrec(prec, ops, base).right(base + i) == prec.right(ops[i])
  {
  }

  /** The next operand and operator are new. */
  lemma NextWords(P: Prec, e: seq<int>, base: int, i: int)
    requires Operands(e, base) && 0 <= i < |e|
    ensures var s := After(P, e, base, i);
            && Distinct(Read(s) + [e[i]] + [base + i])
            && e[i] in Woven(e, base, i + 1) && base + i in Woven(e, base, i + 1)
            && forall n :: n in Read(s) ==> n in Woven(e, base, i + 1)
  {
    AfterRead(P, e, base, i);
    WovenDistinct(e, base, i + 1);
    assert Woven(e, base, i + 1) == Woven(e, base, i) + [e[i]] + [base + i];
  }

  /** Later operands are not among the words read so far. */
  lemma NextWaiting(S: Links, e: seq<int>, base: int, i: int)
    requires Operands(e, base) && 0 <= i < |e| && Waiting(S, e, i)
    ensures Loose(S, e[i]) && forall j :: i < j < |e| ==> Loose(S, e[j]) && e[j] !in Woven(e, base, i + 1)
  {
    forall j | i < j < |e|
      ensures e[j] !in Woven(e, base, i + 1)
    {
      WovenHas(e, base, i + 1, e[j]);
    }
  }

  lemma LastWords(P: Prec, e: seq<int>, base: int)
    requires Operands(e, base) && e != []
    ensures var s := After(P, e, base, |e| - 1);
            && Distinct(Read(s) + [e[|e| - 1]])
            && InOrder(Close(s, Elem(e[|e| - 1]))) == Sentence(e, base) && Respects(P, Close(s, Elem(e[|e| - 1])))
  {
    var k := |e| - 1;
    AfterRead(P, e, base, k);
    WovenDistinct(e, base, k);
    WovenHas(e, base, k, e[k]);
    CloseOk(P, After(P, e, base, k), Elem(e[k]));
  }

  lemma SentenceHas(e: seq<int>, base: int)
    requires e != []
    ensures e[|e| - 1] in Sentence(e, base) && forall n :: n in Woven(e, base, |e| - 1) ==> n in Sentence(e, base)
  {
    hide Woven;
  }

  /** Of the nodes there were, the words read are operands. */
  lemma WovenSpares(S: Links, S': Links, S'': Links, e: seq<int>, base: int, i: int, v: set<int>)
    requires 0 <= i <= |e| && |S.father| == base && v == set n | n in Woven(e, base, i)
    requires Spares(S, S', (set n | n in e), base) && Spares(S', S'', v, base)
    ensures Spares(S, S'', (set n | n in e), base)
  {
    hide Woven;
    forall n | IsNode(S, n) && n !in e
      ensures n !in v
    {
      WovenHas(e, base, i, n);
    }
  }

  lemma LastSpares(S: Links, S': Links, S'': Links, e: seq<int>, base: int, v: set<int>)
    requires e != [] && |S.father| == base && v == set n | n in Sentence(e, base)
    requires Spares(S, S', (set n | n in e), base) && Spares(S', S'', v, base)
    ensures Spares(S, S'', (set n | n in e), base)
  {
    hide Woven;
    forall n | IsNode(S, n) && n !in e
      ensures n !in v
    {
      WovenHas(e, base, |e| - 1, n);
    }
  }

  class Compiler {
    var father: seq<int>
    var lson: seq<int>
    var rsib: seq<int>
    var sons: seq<int>           // the count in the node's code descriptor
    const prec: Prec             // precedences, by the code of a node
    var code: seq<int>
    var exprnd: int

    function L(): Links
      reads this
    {
      Links(father, lson, rsib, sons)
    }

    constructor (prec: Prec)
      ensures Even(L()) && |father| == 1 == |code| && exprnd == 0 && this.prec == prec
    {
      father, lson, rsib, sons, code, exprnd := [0], [0], [0], [0], [0], 0;
      this.prec := prec;
    }

    /** ADDSIB. */
    method AddSibling(a1: int, a2: int)
      requires IsNode(L(), a1) && IsNode(L(), a2) && 0 <= father[a1] < |father|
      modifies this`father, this`rsib, this`sons
      ensures L() == AddSib(old(L()), a1, a2)
    {
      var a3 := father[a1];
      rsib := rsib[a2 := rsib[a1]];
      father := father[a2 := father[a1]];
      rsib := rsib[a1 := a2];
      sons := sons[a3 := sons[a3] + 1];
    }

    /** ADDSON. */
    method AddFirst(a1: int, a2: int)
      requires IsNode(L(), a1) && IsNode(L(), a2)
      modifies this`father, this`lson, this`rsib, this`sons
      ensures L() == AddSon(old(L()), a1, a2)
    {
      father := father[a2 := a1];
      rsib := rsib[a2 := lson[a1]];
      lson := lson[a1 := a2];
      sons := sons[a1 := sons[a1] + 1];
    }

    /** INSERT: a1 is the last of the siblings c, but not the first; the walk
        along them finds the one before it. */
    method InsertAbove(a1: int, a2: int, ghost c: seq<int>)
      requires IsNode(L(), a1) && IsNode(L(), a2) && IsNode(L(), father[a1])
      requires |c| >= 2 && c[0] == lson[father[a1]] && c[|c| - 1] == a1 && IsNode(L(), c[|c| - 2])
      requires forall i :: 0 <= i < |c| - 1 ==> SiblingAt(L(), c, i, a1)
      modifies this`father, this`lson, this`rsib, this`sons
      ensures L() == Insert(old(L()), a1, a2, c[|c| - 2])
    {
      var a3 := father[a1];
      var x := lson[a3];
      var y := x;
      assert SiblingAt(L(), c, 0, a1);
      x := rsib[y];
      ghost var i := 0;
      while x != a1
        invariant 0 <= i < |c| - 1 && y == c[i] && x == c[i + 1]
        decreases |c| - i
      {
        i := i + 1;
        assert SiblingAt(L(), c, i, a1);
        y := x;
        x := rsib[y];
      }
      assert i < |c| - 2 ==> SiblingAt(L(), c, i + 1, a1);
      rsib := rsib[y := a2];
      father := father[a2 := a3];
      lson := lson[a2 := a1];
      sons := sons[a2 := sons[a2] + 1];
      father := father[a1 := a2];
    }

    /** A new node, linked to nothing. */
    method NewNode(opcode: int) returns (n: int)
      requires Even(L()) && |code| == |father|
      modifies this`father, this`lson, this`rsib, this`sons, this`code
      ensures n == old(|father|) && Even(L()) && |code| == |father| == n + 1 && code == old(code) + [opcode]
      ensures L() == More(old(L()))
    {
      n := |father|;
      father, lson, rsib, sons, code := father + [0], lson + [0], rsib + [0], sons + [0], code + [opcode];
    }

    // ------------------------------------------------------------- EXPR2, EXPR7

    /** The frames s are built; P gives the precedences of their operators. */
    ghost predicate Built(P: Prec, s: seq<Open>)
      reads this
    {
      && Frames(L(), s, 0) && Even(L()) && |code| == |father| && Coded(P, s)
      && exprnd == if s == [] then 0 else s[|s| - 1].left.node
    }

    ghost predicate Coded(P: Prec, s: seq<Open>)
      reads this
    {
      forall i :: 0 <= i < |s| ==> CodedAt(P, s[i].node)
    }

    ghost predicate CodedAt(P: Prec, n: int)
      reads this
    {
      0 < n < |code| && P.left(n) == prec.left(code[n]) && P.right(n) == prec.right(code[n])
    }

    /** After ADDSIB of the operand: up the tree past all operators that bind
        more tightly than x.  The tree t at exprnd is a right operand. */
    method Climb(x: int, ghost P: Prec, ghost s: seq<Open>, ghost e: int) returns (ghost r: seq<Open>, ghost t: Exp)
      requires Hanging(L(), s, Elem(e)) && s != [] && Coded(P, s) && |code| == |father|
      requires exprnd == s[|s| - 1].left.node && P.left(s[|s| - 1].node) > x
      modifies this`exprnd
      ensures (r, t) == Reduce(P, s, Elem(e), x) && Hanging(L(), r, t) && exprnd == t.node && Coded(P, r)
      ensures Read(r) + InOrder(t) == Read(s) + [e]
    {
      hide Hanging, InOrder, Read, Reduce;
      Up(L(), s, Elem(e));
      LeftUp(L(), s, e);
      exprnd := father[exprnd];
      r, t := s[..|s| - 1], Bin(s[|s| - 1].node, s[|s| - 1].left, Elem(e));
      ReduceMore(P, s, Elem(e), x);
      assert Coded(P, r);
      while father[exprnd] != 0
        invariant Hanging(L(), r, t) && exprnd == t.node && 0 < exprnd < |father| == |code| && Coded(P, r)
        invariant Reduce(P, r, t, x) == Reduce(P, s, Elem(e), x) && Read(r) + InOrder(t) == Read(s) + [e]
        invariant father[exprnd] == FatherOf(r, |r|)
        decreases |r|
      {
        assert r != [];
        ghost var f := r[|r| - 1];
        assert father[exprnd] == f.node;
        assert CodedAt(P, f.node);
        if prec.left(code[father[exprnd]]) <= x {
          break;
        }
        Up(L(), r, t);
        ReduceMore(P, r, t, x);
        exprnd := father[exprnd];
        r, t := r[..|r| - 1], Bin(f.node, f.left, t);
        assert Coded(P, r);
      }
      ReduceDone(P, r, t, x) by { Lowest(L(), r, t); }
    }

    /** Operand elnd and a new operator node o are about to be linked in. */
    ghost predicate Stepping(P: Prec, s: seq<Open>, elnd: int, o: int, v: set<int>, base: int)
      reads this
    {
      && Operators(s, base) && base <= o && Built(P, s) && Loose(L(), elnd) && Fresh(L(), o) && Distinct(Read(s) + [elnd] + [o]) && CodedAt(P, o)
      && forall n :: n in Read(s) || n == elnd || n == o ==> n in v
    }

    /** The first operator. */
    method Start(elnd: int, exopnd: int, ghost P: Prec, ghost v: set<int>, ghost base: int)
      requires Stepping(P, [], elnd, exopnd, v, base)
      modifies this`father, this`lson, this`rsib, this`sons, this`exprnd
      ensures Built(P, Push(P, [], elnd, exopnd)) && |father| == old(|father|) && Spares(old(L()), L(), v, base)
    {
      hide Distinct, FrameAt, OnlyAt, Push, Reduce, RightOf, Spares;
      ghost var S := L();
      assert IsNode(S, elnd) && IsNode(S, exopnd) && Fresh'(S, exopnd, 0) && Rep(S, Elem(elnd), 0) by {
      }
      assert Distinct([] + [elnd] + [exopnd]) && InOrder(Elem(elnd)) == [elnd] && Read([]) == [];
      AddFirst(exopnd, elnd);
      Grown(S, L(), [], exopnd, Elem(elnd), 0);
      assert |father| == old(|father|) && Even(L());
      exprnd := elnd;
      SonSpares(S, exopnd, elnd, v, base);
      ReduceDone(P, [], Elem(elnd), P.right(exopnd));
      PushIs(P, [], elnd, exopnd, [], Elem(elnd));
      assert Coded(P, [] + [Open(exopnd, Elem(elnd))]) && Frames(L(), [] + [Open(exopnd, Elem(elnd))], 0) && L() == AddSon(S, exopnd, elnd) by {
      }
    }

    /** The operator binds at least as tightly as the last one: it and elnd
        become that one's right operand. */
    method Shift(elnd: int, exopnd: int, ghost P: Prec, ghost s: seq<Open>, ghost v: set<int>, ghost base: int)
      requires Stepping(P, s, elnd, exopnd, v, base) && s != [] && P.left(s[|s| - 1].node) <= P.right(exopnd)
      modifies this`father, this`lson, this`rsib, this`sons, this`exprnd
      ensures Built(P, Push(P, s, elnd, exopnd)) && |father| == old(|father|) && Spares(old(L()), L(), v, base)
    {
      hide Distinct, FrameAt, Frames, InFrame, OnlyAt, Push, Read, Reduce, Spares;
      ghost var S, x, f := L(), exprnd, s[|s| - 1].node;
      LastLeft(S, s, 0);
      assert IsNode(S, elnd) && IsNode(S, exopnd);
      assert 0 <= father[exprnd] < |father| && father[exprnd] == f;
      AddSibling(exprnd, exopnd);
      ghost var S1 := L();
      InWords(s, v);
      SibSpares(S, x, exopnd, v, base);
      exprnd := exopnd;
      assert L() == S1 && IsNode(S1, elnd) && IsNode(S1, exopnd) && |father| == old(|father|) by {
      }
      AddFirst(exprnd, elnd);
      ghost var S2 := L();
      SonSpares(S1, exopnd, elnd, v, base);
      SparesTrans(S, S1, S2, v, base);
      exprnd := elnd;
      Shifted(S, S1, S2, s, elnd, exopnd);
      ReduceDone(P, s, Elem(elnd), P.right(exopnd));
      PushIs(P, s, elnd, exopnd, s, Elem(elnd));
      assert L() == S2 && Even(S2) && |father| == old(|father|);
      assert Coded(P, s + [Open(exopnd, Elem(elnd))]);
    }

    /** The last operator binds more tightly: elnd completes it, and the new
        operator goes above it and all others that do. */
    method Complete(elnd: int, exopnd: int, ghost P: Prec, ghost s: seq<Open>, ghost v: set<int>, ghost base: int)
      requires Stepping(P, s, elnd, exopnd, v, base) && s != [] && P.left(s[|s| - 1].node) > P.right(exopnd)
      modifies this`father, this`lson, this`rsib, this`sons, this`exprnd
      ensures Built(P, Push(P, s, elnd, exopnd)) && |father| == old(|father|) && Spares(old(L()), L(), v, base)
    {
      hide Distinct, Even, FrameAt, Frames, Hanging, InFrame, InOrder, OnlyAt, Push, Read, Reduce, Spares;
      ghost var S, x, f := L(), exprnd, s[|s| - 1].node;
      LastLeft(S, s, 0);
      InWords(s, v);
      assert IsNode(S, elnd) && IsNode(S, exopnd);
      assert 0 <= father[exprnd] < |father| && father[exprnd] == f;
      AddSibling(exprnd, elnd);
      ghost var S1 := L();
      SibSpares(S, x, elnd, v, base);
      DistinctSum(Read(s) + [elnd], [exopnd]);
      DistinctSum(Read(s), [elnd]);
      assert elnd !in Read(s) && exopnd !in Read(s) && exopnd != elnd by {
        assert elnd in [elnd] && exopnd in [exopnd] && elnd in Read(s) + [elnd];
      }
      Completed(S, S1, s, elnd);
      FreshStill(S, S1, s, elnd, exopnd);
      assert |father| == old(|father|);
      assert Coded(P, s);
      assert 0 < exopnd < |code| && prec.right(code[exopnd]) == P.right(exopnd);
      ghost var r, t := Climb(prec.right(code[exopnd]), P, s, elnd);
      assert L() == S1;
      ReduceOperators(P, s, Elem(elnd), P.right(exopnd), base);
      Top(exopnd, P, r, t, v, base);
      SparesTrans(S, S1, L(), v, base);
      PushIs(P, s, elnd, exopnd, r, t);
    }

    /** The new operator goes above the tree t at exprnd. */
    method Top(exopnd: int, ghost P: Prec, ghost r: seq<Open>, ghost t: Exp, ghost v: set<int>, ghost base: int)
      requires Hanging(L(), r, t) && Fresh(L(), exopnd) && exprnd == t.node && Distinct(Read(r) + InOrder(t) + [exopnd])
      requires Coded(P, r) && CodedAt(P, exopnd) && |code| == |father| && base <= exopnd
      requires forall n :: n in Read(r) + InOrder(t) || n == exopnd ==> n in v
      modifies this`father, this`lson, this`rsib, this`sons
      ensures Built(P, r + [Open(exopnd, t)]) && |father| == old(|father|) && Spares(old(L()), L(), v, base)
    {
      hide Distinct, FrameAt, Hanging, InOrder, OnlyAt, Read, Rep, RightOf, Spares;
      ghost var S := L();
      HangingRoot(S, r, t);
      NodeIn(t);
      assert IsNode(S, exopnd);
      assert Coded(P, r + [Open(exopnd, t)]);
      if father[exprnd] == 0 {
        assert r == [] by { Lowest(S, r, t); }
        AddFirst(exopnd, exprnd);
        SonSpares(S, exopnd, t.node, v, base);
        assert Frames(S, r, exopnd) && Fresh'(S, exopnd, FatherOf(r, |r|)) by {
        }
        Grown(S, L(), r, exopnd, t, FatherOf(r, |r|));
      } else {
        assert r != [];
        ghost var k := |r| - 1;
        ghost var y := r[k].left.node;
        InWords(r, v);
        LastHere(S, r, t);
        assert IsNode(S, father[exprnd]) && lson[father[exprnd]] == y;
        InsertAbove(exprnd, exopnd, [y, t.node]);
        InsertSpares(S, t.node, exopnd, y, v, base);
        Inserted(S, L(), r, exopnd, t);
      }
      assert |father| == old(|father|) && Even(L());
      assert Built(P, r + [Open(exopnd, t)]);
    }

    /** EXPR2: the operator opcode has been read after operand elnd. */
    method Operator(elnd: int, opcode: int, ghost P: Prec, ghost s: seq<Open>, ghost v: set<int>, ghost base: int)
      requires Built(P, s) && Loose(L(), elnd) && Distinct(Read(s) + [elnd] + [|father|]) && |father| > 0
      requires P.left(|father|) == prec.left(opcode) && P.right(|father|) == prec.right(opcode)
      requires Operators(s, base) && base <= |father|
      requires forall n :: n in Read(s) || n == elnd || n == |father| ==> n in v
      modifies this`father, this`lson, this`rsib, this`sons, this`code, this`exprnd
      ensures Built(P, Push(P, s, elnd, old(|father|))) && |father| == old(|father|) + 1
      ensures Spares(old(L()), L(), v, base) && code == old(code) + [opcode]
    {
      hide Distinct, FrameAt, Frames, Fresh, InFrame, Push, Read, Spares;
      ghost var S0 := L();
      FramesMore(S0, s, 0);
      SparesMore(S0, v, base);
      assert Loose(More(S0), elnd);
      var exopnd := NewNode(opcode);
      assert Coded(P, s) && CodedAt(P, exopnd);
      assert Fresh(L(), exopnd);
      assert Stepping(P, s, elnd, exopnd, v, base);
      ghost var S1 := L();
      if exprnd == 0 {
        NoFrames(S1, s);
        Start(elnd, exopnd, P, v, base);
      } else {
        LastLeft(S1, s, 0);
        assert IsNode(S1, exprnd) && father[exprnd] == s[|s| - 1].node && CodedAt(P, s[|s| - 1].node);
        if prec.left(code[father[exprnd]]) <= prec.right(opcode) {
          Shift(elnd, exopnd, P, s, v, base);
        } else {
          Complete(elnd, exopnd, P, s, v, base);
        }
      }
      SparesTrans(S0, S1, L(), v, base);
    }

    /** EXPR7: the last operand elnd; up to the root. */
    method Finish(elnd: int, ghost P: Prec, ghost s: seq<Open>, ghost v: set<int>, ghost base: int) returns (root: int)
      requires Built(P, s) && Loose(L(), elnd) && Distinct(Read(s) + [elnd])
      requires Operators(s, base) && forall n :: n in Read(s) || n == elnd ==> n in v
      modifies this`father, this`rsib, this`sons, this`exprnd
      ensures root == Precedence.Close(s, Elem(elnd)).node && Rep(L(), Precedence.Close(s, Elem(elnd)), 0)
      ensures IsNode(L(), root) && rsib[root] == 0 && |father| == old(|father|) && Spares(old(L()), L(), v, base)
    {
      hide AddSib, Coded, Distinct, FatherOf, FrameAt, Frames, Hanging, InFrame, InOrder, Read;
      ghost var S := L();
      assert IsNode(S, elnd);
      if exprnd == 0 {
        NoFrames(S, s);
        root := elnd;
        assert Rep(S, Elem(elnd), 0) && Precedence.Close([], Elem(elnd)) == Elem(elnd);
        assert father[root] == 0;
      } else {
        LastLeft(S, s, 0);
        assert 0 <= father[exprnd] < |father|;
        InWords(s, v);
        SibSpares(S, exprnd, elnd, v, base);
        AddSibling(exprnd, elnd);
        DistinctSum(Read(s), [elnd]);
        assert elnd !in Read(s) by { assert elnd in [elnd]; }
        Completed(S, L(), s, elnd);
        LeftUp(L(), s, elnd);
        Up(L(), s, Elem(elnd));
        CloseMore(s, Elem(elnd));
        assert 0 < exprnd < |father| && father[exprnd] == s[|s| - 1].node;
        root := Root(father[exprnd], s[..|s| - 1], Bin(s[|s| - 1].node, s[|s| - 1].left, Elem(elnd)));
      }
    }

    /** The root above node n. */
    method Root(n: int, ghost s: seq<Open>, ghost t: Exp) returns (root: int)
      requires Hanging(L(), s, t) && n == t.node
      ensures root == Precedence.Close(s, t).node && Rep(L(), Precedence.Close(s, t), 0)
      ensures IsNode(L(), root) && rsib[root] == 0
    {
      hide Hanging, InOrder, Read, Rep;
      root := n;
      ghost var r, u := s, t;
      HangingRoot(L(), r, u);
      while father[root] != 0
        invariant Hanging(L(), r, u) && root == u.node && 0 < root < |father| && father[root] == FatherOf(r, |r|)
        invariant Precedence.Close(r, u) == Precedence.Close(s, t)
        decreases |r|
      {
        assert r != [];
        Up(L(), r, u);
        CloseMore(r, u);
        root := father[root];
        r, u := r[..|r| - 1], Bin(r[|r| - 1].node, r[|r| - 1].left, u);
        HangingRoot(L(), r, u);
      }
      assert r == [] by { Lowest(L(), r, u); }
      HangingRoot(L(), r, u);
      assert FatherOf(r, |r|) == 0 && Precedence.Close(r, u) == u;
    }

    /** Of the nodes S0 those in e and what was made since have been linked. */
    ghost predicate Far(S0: Links, P: Prec, e: seq<int>, base: int, i: int)
      requires 0 <= i < |e|
      reads this
    {
      && Built(P, After(P, e, base, i)) && |father| == base + i && |S0.father| == base > 0 && Operands(e, base)
      && Waiting(L(), e, i) && Spares(S0, L(), (set n | n in e), base)
    }

    /** One operand and the operator behind it. */
    method Next(e: seq<int>, opcode: int, i: int, ghost S0: Links, ghost P: Prec, ghost base: int)
      requires 0 <= i < |e| - 1 && Far(S0, P, e, base, i)
      requires P.left(base + i) == prec.left(opcode) && P.right(base + i) == prec.right(opcode)
      modifies this`father, this`lson, this`rsib, this`sons, this`code, this`exprnd
      ensures Far(S0, P, e, base, i + 1) && code == old(code) + [opcode]
    {
      hide Built, Distinct, Operands, Push, Read, Woven, Spares;
      ghost var w := Woven(e, base, i + 1);
      ghost var v := set n | n in w;
      NextWords(P, e, base, i);
      assert forall n :: n in w ==> n in v;
      NextWaiting(L(), e, base, i);
      AfterOperators(P, e, base, i);
      ghost var S1 := L();
      Operator(e[i], opcode, P, After(P, e, base, i), v, base);
      WovenSpares(S0, S1, L(), e, base, i + 1, v);
      assert After(P, e, base, i + 1) == Push(P, After(P, e, base, i), e[i], base + i);
      forall j | i + 1 <= j < |e|
        ensures Loose(L(), e[j])
      {
        SparesLoose(S1, L(), v, base, e[j]);
      }
    }

    /** EXPR: the tree of the operands e and the operators ops between them, whose
        nodes are numbered from base. */
    method Expression(e: seq<int>, ops: seq<int>) returns (root: int, ghost t: Exp, ghost base: int)
      requires Even(L()) && |code| == |father| > 0 && |e| == |ops| + 1
      requires Operands(e, |father|) && Waiting(L(), e, 0)
      modifies this`father, this`lson, this`rsib, this`sons, this`code, this`exprnd
      ensures base == old(|father|) && code == old(code) + ops && root == t.node && Rep(L(), t, 0)
      ensures InOrder(t) == Sentence(e, base) && Respects(OpPrec(prec, ops, base), t)
      ensures 0 < root < |father| == |rsib| == |lson| == |sons| == base + |ops| && rsib[root] == 0
      ensures forall n :: 0 < n < base ==> lson[n] == old(lson[n]) && sons[n] == old(sons[n])
      ensures forall n :: 0 < n < base && n !in e ==> father[n] == old(father[n]) && rsib[n] == old(rsib[n])
    {
      hide Close, Distinct, Far, InOrder, OpPrec, Operands, Read, Rep, Respects, Sentence, Woven;
      base := |father|;
      ghost var P, code0, S0 := OpPrec(prec, ops, base), code, L();
      exprnd := 0;
      var i := 0;
      assert Far(S0, P, e, base, 0) by { Begun(S0, P, e, base); }
      while i < |ops|
        invariant 0 <= i <= |ops| && Far(S0, P, e, base, i) && code == code0 + ops[..i]
      {
        OpPrecAt(prec, ops, base, i);
        Next(e, ops[i], i, S0, P, base);
        assert ops[..i + 1] == ops[..i] + [ops[i]];
        i := i + 1;
      }
      assert ops[..i] == ops;
      LastWords(P, e, base);
      t := Close(After(P, e, base, i), Elem(e[i]));
      root := Last(e, S0, P, base);
    }

    lemma Begun(S0: Links, P: Prec, e: seq<int>, base: int)
      requires Even(L()) && |code| == |father| == base > 0 && exprnd == 0 && L() == S0 && e != []
      requires Operands(e, |father|) && Waiting(L(), e, 0)
      ensures Far(S0, P, e, base, 0)
    {
    }

    /** The last operand. */
    method Last(e: seq<int>, ghost S0: Links, ghost P: Prec, ghost base: int) returns (root: int)
      requires e != [] && Far(S0, P, e, base, |e| - 1)
      modifies this`father, this`rsib, this`sons, this`exprnd
      ensures var t := Precedence.Close(After(P, e, base, |e| - 1), Elem(e[|e| - 1])); root == t.node && Rep(L(), t, 0)
      ensures IsNode(L(), root) && rsib[root] == 0 && |father| == base + |e| - 1 && |S0.father| == base
      ensures Spares(S0, L(), (set n | n in e), base)
    {
      hide Built, Close, Distinct, InOrder, Operands, Read, Rep, Respects, Sentence, Spares, Woven;
      var i := |e| - 1;
      ghost var w, S1 := Sentence(e, base), L();
      ghost var v := set n | n in w;
      LastWords(P, e, base);
      AfterOperators(P, e, base, i);
      AfterRead(P, e, base, i);
      SentenceHas(e, base);
      assert forall n :: n in w ==> n in v;
      root := Finish(e[i], P, After(P, e, base, i), v, base);
      LastSpares(S0, S1, L(), e, base, v);
    }
  }
}
