/** Prefix code: a tree is written node by node into the code block, and whole
    subtrees of it are skipped again by counting. */
module PrefixCode {
  import ExprTree
  import Precedence

  /** A cell of object code: a function with its number of arguments, or not. */
  datatype Cell = Cell(fnc: bool, v: int, a: int)

  /** A tree of nodes with any number of sons. */
  datatype Tree = Tree(node: int, sons: seq<Tree>)

  /** The tree in prefix order. */
  function Prefix(code: seq<Cell>, t: Tree): (s: seq<Cell>)
    ensures s != []
  {
    [if 0 <= t.node < |code| then code[t.node] else Cell(false, 0, 0)] + PrefixAll(code, t.sons)
  }

  function PrefixAll(code: seq<Cell>, ts: seq<Tree>): (s: seq<Cell>)
    ensures |s| >= |ts|
  {
    if ts == [] then [] else Prefix(code, ts[0]) + PrefixAll(code, ts[1..])
  }

  // -------------------------------------------------------------- the linked tree

  function FirstOf(ts: seq<Tree>): int {
    if ts == [] then 0 else ts[0].node
  }

  /** The nodes of t are linked; its root has father fa and next sibling sib. */
  ghost predicate Linked(S: ExprTree.Links, t: Tree, fa: int, sib: int) {
    && ExprTree.IsNode(S, t.node) && S.father[t.node] == fa && S.rsib[t.node] == sib
    && S.lson[t.node] == FirstOf(t.sons) && LinkedAll(S, t.sons, t.node)
  }

  ghost predicate LinkedAll(S: ExprTree.Links, ts: seq<Tree>, fa: int) {
    ts == [] || (Linked(S, ts[0], fa, FirstOf(ts[1..])) && LinkedAll(S, ts[1..], fa))
  }

  lemma {:induction false} LinkedSon(S: ExprTree.Links, ts: seq<Tree>, fa: int, k: int)
    requires LinkedAll(S, ts, fa) && 0 <= k < |ts|
    ensures Linked(S, ts[k], fa, FirstOf(ts[k + 1..]))
    decreases |ts|
  {
    if k > 0 {
      LinkedSon(S, ts[1..], fa, k - 1);
      assert ts[1..][k..] == ts[k + 1..];
    }
  }

  /** The tree of an expression; subs gives what hangs below each operand. */
  function TreeOf(t: Precedence.Exp, subs: int -> seq<Tree>): (u: Tree)
    ensures u.node == t.node
  {
    match t
    case Elem(n) => Tree(n, subs(n))
    case Bin(n, l, r) => Tree(n, [TreeOf(l, subs), TreeOf(r, subs)])
  }

  /** An operator, its left operand, its right operand. */
  lemma OperatorFirst(code: seq<Cell>, t: Precedence.Exp, subs: int -> seq<Tree>)
    requires t.Bin? && 0 <= t.node < |code|
    ensures Prefix(code, TreeOf(t, subs)) == [code[t.node]] + Prefix(code, TreeOf(t.left, subs)) + Prefix(code, TreeOf(t.right, subs))
  {
    hide TreeOf, Prefix, PrefixAll;
    TreeOfBin(t, subs);
    PrefixTwo(code, t.node, TreeOf(t.left, subs), TreeOf(t.right, subs));
  }

  lemma TreeOfBin(t: Precedence.Exp, subs: int -> seq<Tree>)
    requires t.Bin?
    ensures TreeOf(t, subs) == Tree(t.node, [TreeOf(t.left, subs), TreeOf(t.right, subs)])
  {
  }

  lemma PrefixTwo(code: seq<Cell>, n: int, u: Tree, v: Tree)
    requires 0 <= n < |code|
    ensures Prefix(code, Tree(n, [u, v])) == [code[n]] + Prefix(code, u) + Prefix(code, v)
  {
    hide Prefix, PrefixAll;
    var w := Tree(n, [u, v]);
    PrefixAt(code, w);
    AllAt(code, w.sons);
    OneTree(code, v);
    assert w.sons[0] == u && w.sons[1..] == [v];
    assert Prefix(code, w) == [code[n]] + (Prefix(code, u) + Prefix(code, v));
  }

  ghost predicate OperandsLinked(S: ExprTree.Links, t: Precedence.Exp, subs: int -> seq<Tree>) {
    match t
    case Elem(n) => ExprTree.IsNode(S, n) && S.lson[n] == FirstOf(subs(n)) && LinkedAll(S, subs(n), n)
    case Bin(n, l, r) => OperandsLinked(S, l, subs) && OperandsLinked(S, r, subs)
  }

  /** What the expression compiler has built can be written out. */
  lemma {:induction false} RepLinked(S: ExprTree.Links, t: Precedence.Exp, subs: int -> seq<Tree>, fa: int)
    requires ExprTree.Rep(S, t, fa) && OperandsLinked(S, t, subs)
    ensures ExprTree.IsNode(S, t.node) && Linked(S, TreeOf(t, subs), fa, S.rsib[t.node])
    decreases t
  {
    if t.Bin? {
      RepLinked(S, t.left, subs, t.node);
      RepLinked(S, t.right, subs, t.node);
      var u, v := TreeOf(t.left, subs), TreeOf(t.right, subs);
      assert [u, v][1..] == [v] && [v][1..] == [];
      assert LinkedAll(S, [v], t.node) && LinkedAll(S, [u, v], t.node);
    }
  }

  // ------------------------------------------------------------------ the walk

  /** On the way down from the root: at son number son of tree. */
  datatype Step = Step(tree: Tree, son: int)

  /** c is where the way from root leads. */
  ghost predicate Leads(root: Tree, way: seq<Step>, c: Tree)
    decreases |way|
  {
    if way == [] then c == root
    else
      var w := way[|way| - 1];
      0 <= w.son < |w.tree.sons| && w.tree.sons[w.son] == c && Leads(root, way[..|way| - 1], w.tree)
  }

  /** The father of the node that the way leads to. */
  function Above(way: seq<Step>): int {
    if way == [] then 0 else way[|way| - 1].tree.node
  }

  function SiblingOf(way: seq<Step>): int {
    if way == [] then 0
    else
      var w := way[|way| - 1];
      if 0 <= w.son < |w.tree.sons| then FirstOf(w.tree.sons[w.son + 1..]) else 0
  }

  /** What comes after the node that the way leads to. */
  function Rest(code: seq<Cell>, way: seq<Step>): (s: seq<Cell>)
    decreases |way|
  {
    if way == [] then []
    else
      var w := way[|way| - 1];
      (if 0 <= w.son < |w.tree.sons| then PrefixAll(code, w.tree.sons[w.son + 1..]) else []) + Rest(code, way[..|way| - 1])
  }

  lemma {:induction false} Here(S: ExprTree.Links, root: Tree, way: seq<Step>, c: Tree)
    requires Linked(S, root, 0, 0) && Leads(root, way, c)
    ensures Linked(S, c, Above(way), SiblingOf(way))
    decreases |way|
  {
    if way != [] {
      var w := way[|way| - 1];
      Here(S, root, way[..|way| - 1], w.tree);
      LinkedSon(S, w.tree.sons, w.tree.node, w.son);
    }
  }

  lemma PrefixDown(code: seq<Cell>, c: Tree)
    requires c.sons != []
    ensures Prefix(code, c) == [Prefix(code, c)[0]] + (Prefix(code, c.sons[0]) + PrefixAll(code, c.sons[1..]))
  {
  }

  lemma RestDown(code: seq<Cell>, way: seq<Step>, c: Tree)
    requires c.sons != []
    ensures Rest(code, way + [Step(c, 0)]) == PrefixAll(code, c.sons[1..]) + Rest(code, way)
  {
    hide PrefixAll;
    var w := way + [Step(c, 0)];
    assert w[..|w| - 1] == way;
  }

  /** Down to the first son. */
  lemma Down(code: seq<Cell>, root: Tree, way: seq<Step>, c: Tree)
    requires Leads(root, way, c) && c.sons != []
    ensures Leads(root, way + [Step(c, 0)], c.sons[0])
    ensures Prefix(code, c) + Rest(code, way)
         == [Prefix(code, c)[0]] + (Prefix(code, c.sons[0]) + Rest(code, way + [Step(c, 0)]))
  {
    hide Prefix, PrefixAll, Rest;
    PrefixDown(code, c);
    RestDown(code, way, c);
    var w := way + [Step(c, 0)];
    assert w[..|w| - 1] == way;
  }

  /** On to the next sibling. */
  lemma Across(code: seq<Cell>, root: Tree, way: seq<Step>, c: Tree)
    requires Leads(root, way, c) && way != [] && SiblingOf(way) != 0
    ensures var w := way[|way| - 1];
            var way1 := way[..|way| - 1] + [Step(w.tree, w.son + 1)];
            && 0 <= w.son && w.son + 1 < |w.tree.sons| && SiblingOf(way) == w.tree.sons[w.son + 1].node
            && Leads(root, way1, w.tree.sons[w.son + 1])
            && Rest(code, way) == Prefix(code, w.tree.sons[w.son + 1]) + Rest(code, way1)
  {
    var w := way[|way| - 1];
    var before, k, ts := way[..|way| - 1], w.son + 1, w.tree.sons;
    var way1 := before + [Step(w.tree, k)];
    assert 0 <= w.son < |ts| && Leads(root, before, w.tree);
    assert k < |ts|;
    hide *;
    assert way1[..|way1| - 1] == before && way1[|way1| - 1] == Step(w.tree, k);
    assert ts[k..][0] == ts[k] && ts[k..][1..] == ts[k + 1..];
    RestAt(code, way, w);
    RestAt(code, way1, Step(w.tree, k));
    AllAt(code, ts[k..]);
    LeadsAt(root, way1, w.tree, k);
    SiblingAt(way, w);
    Regroup(Prefix(code, ts[k]), PrefixAll(code, ts[k + 1..]), Rest(code, before));
  }

  lemma Regroup(a: seq<Cell>, b: seq<Cell>, c: seq<Cell>)
    ensures a + b + c == a + (b + c)
  {
  }

  lemma LeadsAt(root: Tree, way: seq<Step>, t: Tree, k: int)
    requires way != [] && way[|way| - 1] == Step(t, k) && 0 <= k < |t.sons| && Leads(root, way[..|way| - 1], t)
    ensures Leads(root, way, t.sons[k])
  {
  }

  lemma SiblingAt(way: seq<Step>, w: Step)
    requires way != [] && way[|way| - 1] == w && 0 <= w.son && w.son + 1 < |w.tree.sons|
    ensures SiblingOf(way) == w.tree.sons[w.son + 1].node
  {
  }

  lemma RestAt(code: seq<Cell>, way: seq<Step>, w: Step)
    requires way != [] && way[|way| - 1] == w && 0 <= w.son < |w.tree.sons|
    ensures Rest(code, way) == PrefixAll(code, w.tree.sons[w.son + 1..]) + Rest(code, way[..|way| - 1])
  {
    hide PrefixAll;
  }

  lemma AllAt(code: seq<Cell>, ts: seq<Tree>)
    requires ts != []
    ensures PrefixAll(code, ts) == Prefix(code, ts[0]) + PrefixAll(code, ts[1..])
  {
    hide Prefix;
  }

  /** Up to the father, when there is no next sibling. */
  lemma UpAgain(code: seq<Cell>, root: Tree, way: seq<Step>, c: Tree, S: ExprTree.Links)
    requires Leads(root, way, c) && way != [] && SiblingOf(way) == 0 && Linked(S, root, 0, 0)
    ensures var k := |way| - 1;
            && Leads(root, way[..k], way[k].tree) && Rest(code, way) == Rest(code, way[..k])
            && Above(way) == way[k].tree.node && Above(way) != 0
  {
    var k := |way| - 1;
    var w := way[k];
    Here(S, root, way[..k], w.tree);
    var ts := w.tree.sons[w.son + 1..];
    if ts != [] {
      LinkedSon(S, w.tree.sons, w.tree.node, w.son + 1);
    }
    assert PrefixAll(code, []) == [];
  }

  // ------------------------------------------------------------------- skipping

  datatype Skipped = At(i: int) | BadCount | Overrun

  /** CODSKP: behind n subtrees from cell i + 1 on. */
  function Skip(code: seq<Cell>, i: int, n: int): (r: Skipped)
    requires -1 <= i < |code|
    ensures r.At? ==> i < r.i < |code|
    decreases |code| - i
  {
    if i + 1 >= |code| then Overrun
    else
      var r := if code[i + 1].fnc then Skip(code, i + 1, code[i + 1].v) else At(i + 1);
      if !r.At? then r
      else if n - 1 < 0 then BadCount
      else if n - 1 == 0 then r
      else Skip(code, r.i, n - 1)
  }

  /** Every function node counts its sons, and has some; others have none. */
  predicate Counted(code: seq<Cell>, t: Tree) {
    && 0 < t.node < |code|
    && (if code[t.node].fnc then code[t.node].v == |t.sons| >= 1 else t.sons == [])
    && forall k :: 0 <= k < |t.sons| ==> Counted(code, t.sons[k])
  }

  /** The counts are to blame for a bad count. */
  lemma {:induction false} BadCountMeans(code: seq<Cell>, i: int, n: int)
    requires -1 <= i < |code| && Skip(code, i, n).BadCount?
    ensures n <= 0 || exists k :: i < k < |code| && code[k].fnc && code[k].v <= 0
    decreases |code| - i
  {
    hide Skip;
    SkipOne(code, i, n);
    var r := if code[i + 1].fnc then Skip(code, i + 1, code[i + 1].v) else At(i + 1);
    if r.BadCount? {
      BadCountMeans(code, i + 1, code[i + 1].v);
    } else if n > 1 {
      BadCountMeans(code, r.i, n - 1);
    }
  }

  lemma SkipOne(code: seq<Cell>, i: int, n: int)
    requires -1 <= i < |code| && !Skip(code, i, n).Overrun?
    ensures i + 1 < |code|
    ensures var r := if code[i + 1].fnc then Skip(code, i + 1, code[i + 1].v) else At(i + 1);
            && !r.Overrun? && (r.At? ==> i < r.i < |code|)
            && Skip(code, i, n) == if !r.At? then r else if n < 1 then BadCount else if n == 1 then r else Skip(code, r.i, n - 1)
  {
  }

  /** Where skipping succeeds, what lies behind makes no difference. */
  lemma {:induction false} SkipFurther(code: seq<Cell>, more: seq<Cell>, i: int, n: int)
    requires -1 <= i < |code| && Skip(code, i, n).At?
    ensures Skip(code + more, i, n) == Skip(code, i, n)
    decreases |code| - i
  {
    hide Skip;
    SkipOne(code, i, n);
    var r := if code[i + 1].fnc then Skip(code, i + 1, code[i + 1].v) else At(i + 1);
    if code[i + 1].fnc {
      SkipFurther(code, more, i + 1, code[i + 1].v);
    }
    if n > 1 {
      SkipFurther(code, more, r.i, n - 1);
    }
    SkipStep(code + more, i, n, r.i);
  }

  lemma SkipStep(text: seq<Cell>, i: int, n: int, j: int)
    requires -1 <= i && i + 1 < |text| && n >= 1
    requires (if text[i + 1].fnc then Skip(text, i + 1, text[i + 1].v) else At(i + 1)) == At(j)
    ensures i < j < |text| && Skip(text, i, n) == if n == 1 then At(j) else Skip(text, j, n - 1)
  {
  }

  /** Skipping as many subtrees as have been written ends behind them. */
  lemma {:induction false} SkipsTrees(code: seq<Cell>, text: seq<Cell>, i: int, ts: seq<Tree>)
    requires ts != [] && -1 <= i && i + |PrefixAll(code, ts)| < |text|
    requires text[i + 1..i + 1 + |PrefixAll(code, ts)|] == PrefixAll(code, ts)
    requires forall k :: 0 <= k < |ts| ==> Counted(code, ts[k])
    ensures Skip(text, i, |ts|) == At(i + |PrefixAll(code, ts)|)
    decreases |PrefixAll(code, ts)|
  {
    hide Skip, Prefix, PrefixAll;
    var t, more := ts[0], ts[1..];
    var p, q, inner := Prefix(code, t), PrefixAll(code, more), PrefixAll(code, t.sons);
    AllAt(code, ts);
    NoneAt(code, more);
    NoneAt(code, t.sons);
    Slices(text, i + 1, p, q);
    assert Counted(code, t);
    PrefixAt(code, t);
    Slices(text, i + 1, [code[t.node]], inner);
    assert text[i + 1] == text[i + 1..i + 1 + 1][0];
    if text[i + 1].fnc {
      SkipsTrees(code, text, i + 1, t.sons);
    }
    SkipStep(text, i, |ts|, i + |p|);
    if more != [] {
      SkipsTrees(code, text, i + |p|, more);
    }
  }

  lemma NoneAt(code: seq<Cell>, ts: seq<Tree>)
    ensures ts == [] <==> PrefixAll(code, ts) == []
  {
  }

  lemma PrefixAt(code: seq<Cell>, t: Tree)
    requires 0 <= t.node < |code|
    ensures Prefix(code, t) == [code[t.node]] + PrefixAll(code, t.sons)
  {
    hide PrefixAll;
  }

  /** The round trip: what is written behind other code is skipped exactly. */
  lemma SkipsWritten(code: seq<Cell>, before: seq<Cell>, t: Tree)
    requires Counted(code, t)
    ensures Skip(before + Prefix(code, t), |before| - 1, 1) == At(|before + Prefix(code, t)| - 1)
  {
    hide Prefix, Counted;
    OneTree(code, t);
    var text := before + Prefix(code, t);
    assert text[|before|..|before| + |Prefix(code, t)|] == Prefix(code, t);
    SkipsTrees(code, text, |before| - 1, [t]);
  }

  lemma OneTree(code: seq<Cell>, t: Tree)
    ensures PrefixAll(code, [t]) == Prefix(code, t)
  {
    hide Prefix;
    assert PrefixAll(code, [t][1..]) == [];
  }

  /** Each node's code carries the number of its sons as the compiler counted
      them, and functions are just the nodes that have sons. */
  ghost predicate Coded(S: ExprTree.Links, code: seq<Cell>) {
    |code| == |S.father| && forall n :: ExprTree.IsNode(S, n) ==> code[n].v == S.sons[n] && (S.sons[n] > 0 ==> code[n].fnc)
  }

  ghost predicate OperandsCounted(code: seq<Cell>, t: Precedence.Exp, subs: int -> seq<Tree>) {
    match t
    case Elem(n) => Counted(code, Tree(n, subs(n)))
    case Bin(_, l, r) => OperandsCounted(code, l, subs) && OperandsCounted(code, r, subs)
  }

  /** The counts of what the expression compiler has built are right. */
  lemma {:induction false} RepCounted(S: ExprTree.Links, t: Precedence.Exp, subs: int -> seq<Tree>, fa: int, code: seq<Cell>)
    requires ExprTree.Rep(S, t, fa) && Coded(S, code) && OperandsCounted(code, t, subs)
    ensures Counted(code, TreeOf(t, subs))
    decreases t
  {
    if t.Bin? {
      RepCounted(S, t.left, subs, t.node, code);
      RepCounted(S, t.right, subs, t.node, code);
    }
  }

  /** From the expression to code and over it again. */
  lemma ExpressionSkipped(S: ExprTree.Links, t: Precedence.Exp, subs: int -> seq<Tree>, code: seq<Cell>, before: seq<Cell>)
    requires ExprTree.Rep(S, t, 0) && Coded(S, code) && OperandsCounted(code, t, subs)
    ensures var text := before + Prefix(code, TreeOf(t, subs)); Skip(text, |before| - 1, 1) == At(|text| - 1)
  {
    hide ExprTree.Rep, Counted, Prefix, Skip, Coded, OperandsCounted;
    RepCounted(S, t, subs, 0, code);
    SkipsWritten(code, before, TreeOf(t, subs));
  }

  // ------------------------------------------------- what hangs below operands

  /** Links of the nodes there were, those of e apart, are as they were. */
  ghost predicate Spared(S: ExprTree.Links, S': ExprTree.Links, e: seq<int>) {
    && ExprTree.Even(S) && ExprTree.Even(S') && |S.father| <= |S'.father|
    && forall n :: 0 < n < |S.father| ==>
         && S'.lson[n] == S.lson[n] && S'.sons[n] == S.sons[n]
         && (n !in e ==> S'.father[n] == S.father[n] && S'.rsib[n] == S.rsib[n])
  }

  lemma {:induction false} LinkedStill(S: ExprTree.Links, S': ExprTree.Links, e: seq<int>, t: Tree, fa: int, sib: int)
    requires Spared(S, S', e) && Linked(S, t, fa, sib) && fa != 0
    requires forall n :: n in e && ExprTree.IsNode(S, n) ==> S.father[n] == 0
    ensures Linked(S', t, fa, sib)
    decreases t, 1, 0
  {
    LinkedAllStill(S, S', e, t.sons, t.node, t);
  }

  lemma {:induction false} LinkedAllStill(S: ExprTree.Links, S': ExprTree.Links, e: seq<int>, ts: seq<Tree>, fa: int, t: Tree)
    requires Spared(S, S', e) && LinkedAll(S, ts, fa) && fa != 0 && forall u :: u in ts ==> u in t.sons
    requires forall n :: n in e && ExprTree.IsNode(S, n) ==> S.father[n] == 0
    ensures LinkedAll(S', ts, fa)
    decreases t, 0, |ts|
  {
    if ts != [] {
      assert ts[0] in t.sons;
      var k :| 0 <= k < |t.sons| && t.sons[k] == ts[0];
      LinkedStill(S, S', e, t.sons[k], fa, FirstOf(ts[1..]));
      LinkedAllStill(S, S', e, ts[1..], fa, t);
    }
  }

  lemma {:induction false} CountedStill(code: seq<Cell>, code': seq<Cell>, t: Tree)
    requires Counted(code, t) && |code| <= |code'| && forall n :: 0 < n < |code| ==> code'[n] == code[n]
    ensures Counted(code', t)
    decreases t
  {
    forall k | 0 <= k < |t.sons|
      ensures Counted(code', t.sons[k])
    {
      CountedStill(code, code', t.sons[k]);
    }
  }

  /** The descriptors in the nodes' code fields: an operation and the count of
      its sons. */
  function Cells(S: ExprTree.Links, opcodes: seq<int>): (code: seq<Cell>)
    requires ExprTree.Even(S) && |opcodes| == |S.father|
    ensures |code| == |opcodes|
  {
    seq(|opcodes|, n requires 0 <= n < |opcodes| => Cell(S.sons[n] > 0, S.sons[n], opcodes[n]))
  }

  /** What hangs below operand n is ts, and is counted. */
  ghost predicate Below(S: ExprTree.Links, opcodes: seq<int>, n: int, ts: seq<Tree>) {
    && ExprTree.IsNode(S, n) && |opcodes| == |S.father| && S.lson[n] == FirstOf(ts) && LinkedAll(S, ts, n)
    && Counted(Cells(S, opcodes), Tree(n, ts))
  }

  lemma BelowStill(S: ExprTree.Links, S': ExprTree.Links, ops: seq<int>, ops': seq<int>, e: seq<int>, n: int, ts: seq<Tree>)
    requires Spared(S, S', e) && Below(S, ops, n, ts) && |ops'| == |S'.father| && ops'[..|ops|] == ops
    requires forall k :: k in e && ExprTree.IsNode(S, k) ==> S.father[k] == 0
    ensures Below(S', ops', n, ts)
  {
    hide Counted, LinkedAll;
    LinkedAllStill(S, S', e, ts, n, Tree(n, ts));
    var code, code' := Cells(S, ops), Cells(S', ops');
    forall k | 0 < k < |code|
      ensures code'[k] == code[k]
    {
      assert ops'[k] == ops'[..|ops|][k];
    }
    CountedStill(code, code', Tree(n, ts));
  }

  /** The tokens at even places are in e. */
  ghost predicate Alternating(w: seq<int>, e: seq<int>) {
    forall i :: 0 <= i < |w| && i % 2 == 0 ==> w[i] in e
  }

  lemma {:induction false} WovenAlternates(e: seq<int>, base: int, i: int)
    requires 0 <= i <= |e|
    ensures Alternating(ExprTree.Woven(e, base, i), e)
    decreases i
  {
    if i > 0 {
      WovenAlternates(e, base, i - 1);
    }
  }

  /** Operands of t are operands of the sentence. */
  lemma {:induction false} OperandsBelow(S: ExprTree.Links, ops: seq<int>, t: Precedence.Exp, e: seq<int>, subs: int -> seq<Tree>)
    requires Alternating(Precedence.InOrder(t), e) && forall n :: n in e ==> Below(S, ops, n, subs(n))
    ensures OperandsLinked(S, t, subs) && (ExprTree.Even(S) && |ops| == |S.father| ==> OperandsCounted(Cells(S, ops), t, subs))
    decreases t
  {
    hide Counted, LinkedAll;
    match t
    case Elem(n) =>
      assert Precedence.InOrder(t)[0] == n;
    case Bin(n, l, r) =>
      var a, b, w := Precedence.InOrder(l), Precedence.InOrder(r), Precedence.InOrder(t);
      Precedence.InOrderOdd(l);
      assert w == a + [n] + b;
      assert forall i :: 0 <= i < |a| ==> a[i] == w[i];
      assert forall i :: 0 <= i < |b| ==> b[i] == w[|a| + 1 + i];
      OperandsBelow(S, ops, l, e, subs);
      OperandsBelow(S, ops, r, e, subs);
  }

  /** What EXPR has built of operands with trees below them is a tree that TREPUB
      can walk, and its counts are right. */
  lemma Published(S: ExprTree.Links, S': ExprTree.Links, ops: seq<int>, ops': seq<int>, e: seq<int>, base: int,
                  t: Precedence.Exp, subs: int -> seq<Tree>)
    requires Spared(S, S', e) && |ops| == |S.father| && |ops'| == |S'.father| && ops'[..|ops|] == ops
    requires e != [] && ExprTree.Operands(e, |S.father|) && ExprTree.Waiting(S, e, 0)
    requires forall n :: n in e ==> Below(S, ops, n, subs(n))
    requires ExprTree.Rep(S', t, 0) && S'.rsib[t.node] == 0 && Precedence.InOrder(t) == ExprTree.Sentence(e, base)
    ensures Linked(S', TreeOf(t, subs), 0, 0) && Counted(Cells(S', ops'), TreeOf(t, subs))
  {
    hide Counted, Linked, LinkedAll, ExprTree.Rep, Below, Precedence.InOrder, ExprTree.Woven, TreeOf, OperandsLinked;
    forall k | k in e && ExprTree.IsNode(S, k)
      ensures S.father[k] == 0
    {
      assert ExprTree.Loose(S, k);
    }
    forall n | n in e
      ensures Below(S', ops', n, subs(n))
    {
      BelowStill(S, S', ops, ops', e, n, subs(n));
    }
    WovenAlternates(e, base, |e| - 1);
    assert e[|e| - 1] in e;
    OperandsBelow(S', ops', t, e, subs);
    RepLinked(S', t, subs, 0);
    RepCounted(S', t, subs, 0, Cells(S', ops'));
  }

  lemma Slices(text: seq<Cell>, i: int, p: seq<Cell>, q: seq<Cell>)
    requires 0 <= i && i + |p + q| <= |text|
    ensures text[i..i + |p + q|] == p + q ==> text[i..i + |p|] == p && text[i + |p|..i + |p| + |q|] == q
    ensures |p + q| == |p| + |q|
  {
    var s := text[i..i + |p + q|];
    assert s[..|p|] == text[i..i + |p|] && s[|p|..] == text[i + |p|..i + |p| + |q|];
    assert (p + q)[..|p|] == p && (p + q)[|p|..] == q;
  }

  /** CODSKP as it runs: one subtree after another, calling itself for the
      arguments of a function. */
  method CodSkp(text: seq<Cell>, ocicl: int, ycl: int) returns (r: Skipped)
    requires -1 <= ocicl < |text|
    ensures r == Skip(text, ocicl, ycl)
    decreases |text| - ocicl
  {
    var i, y := ocicl, ycl;
    while true
      invariant ocicl <= i < |text| && Skip(text, i, y) == Skip(text, ocicl, ycl)
      decreases |text| - i
    {
      i := i + 1;
      if i >= |text| {
        return Overrun;
      }
      if text[i].fnc {
        var s := CodSkp(text, i, text[i].v);
        if !s.At? {
          return s;
        }
        i := s.i;
      }
      y := y - 1;
      if y < 0 {
        return BadCount;
      }
      if y == 0 {
        return At(i);
      }
    }
  }

  // ------------------------------------------------------------------- writing

  /** Room that a new code block has beyond what is moved there, and what is
      kept free at its end. */
  const CODELT := 200
  const SLACK := 7

  const GOTG := Cell(true, 1, 0)
  const LIT1 := Cell(true, 0, 0)

  class Publisher {
    var block: array<Cell>       // CMBSCL; cell 0 is the title
    var cmofcl: int              // the last cell written
    var oclim: int               // where to move to a larger block

    ghost predicate Valid()
      reads this
    {
      0 <= cmofcl <= oclim && oclim + SLACK < block.Length
    }

    /** The code written so far. */
    ghost function Text(): (s: seq<Cell>)
      requires Valid()
      reads this, block
    {
      block[1..cmofcl + 1]
    }

    constructor (size: nat)
      requires size >= SLACK
      ensures Valid() && Text() == [] && fresh(block)
    {
      block := new Cell[size + 1](_ => Cell(false, 0, 0));
      cmofcl, oclim := 0, size - SLACK;
    }

    /** One cell is written; past the limit the code moves to a larger block, and
        the old one is left with a jump to it. */
    method Emit(xptr: Cell)
      requires Valid()
      modifies this, block
      ensures Valid() && Text() == old(Text()) + [xptr] && (block == old(block) || fresh(block))
      ensures cmofcl == old(cmofcl) + 1
      ensures block != old(block) ==> cmofcl > old(oclim) && old(block)[1] == GOTG && old(block)[2] == LIT1
    {
      cmofcl := cmofcl + 1;
      block[cmofcl] := xptr;
      assert block[1..cmofcl + 1] == old(Text()) + [xptr];
      if cmofcl > oclim {
        var size := cmofcl + CODELT;
        var xcl := new Cell[size + 1](_ => Cell(false, 0, 0));
        forall i | 1 <= i <= cmofcl {
          xcl[i] := block[i];
        }
        assert xcl[1..cmofcl + 1] == block[1..cmofcl + 1];
        block[1], block[2], block[3] := GOTG, LIT1, Cell(false, 0, size);
        block, oclim := xcl, size - SLACK;
      }
    }

    /** TREPUB: the tree t at node root is appended in prefix order.  There is no
        stack: the way back leads over the fathers. */
    method TrePub(root: int, S: ExprTree.Links, code: seq<Cell>, ghost t: Tree)
      requires Valid() && Linked(S, t, 0, 0) && root == t.node && |code| == |S.father|
      modifies this, block
      ensures Valid() && Text() == old(Text()) + Prefix(code, t) && (block == old(block) || fresh(block))
      ensures Counted(code, t) ==> Skip(Text(), |old(Text())| - 1, 1) == At(|Text()| - 1)
    {
      hide Above, Linked, Prefix, PrefixAll, SiblingOf, Text, Valid, Counted, Skip;
      if Counted(code, t) {
        SkipsWritten(code, Text(), t);
      }
      var yptr := root;
      ghost var way: seq<Step>, c, before := [], t, Text();
      assert Leads(t, way, c) && Rest(code, way) == [];
      assert Text() + (Prefix(code, c) + Rest(code, way)) == before + Prefix(code, t);
      while true
        invariant Valid() && Leads(t, way, c) && yptr == c.node && (block == old(block) || fresh(block))
        invariant Text() + (Prefix(code, c) + Rest(code, way)) == before + Prefix(code, t)
        decreases |Prefix(code, c) + Rest(code, way)|
      {
        Node(S, code, t, way, c);
        ghost var text, todo := Text(), Prefix(code, c) + Rest(code, way);
        Emit(code[yptr]);
        if S.lson[yptr] != 0 {
          assert c.sons != [];
          Down(code, t, way, c);
          yptr := S.lson[yptr];
          way, c := way + [Step(c, 0)], c.sons[0];
          assert yptr == c.node;
        } else {
          ghost var left := Rest(code, way);
          assert Text() + left == text + todo;
          var done;
          done, yptr, way, c := Onward(yptr, S, code, t, way, c);
          if done {
            assert Text() + [] == Text();
            return;
          }
        }
      }
    }
  }

  /** The next node in prefix order behind node n and all that hangs below it,
      or none. */
  method Onward(n: int, S: ExprTree.Links, code: seq<Cell>, ghost t: Tree, ghost way0: seq<Step>, ghost c0: Tree)
      returns (done: bool, yptr: int, ghost way: seq<Step>, ghost c: Tree)
    requires Linked(S, t, 0, 0) && |code| == |S.father| && Leads(t, way0, c0) && n == c0.node
    ensures done ==> Rest(code, way0) == []
    ensures !done ==> Leads(t, way, c) && yptr == c.node && Rest(code, way0) == Prefix(code, c) + Rest(code, way)
  {
    hide FirstOf, Leads, Linked, Prefix, Rest;
    done, yptr, way, c := false, n, way0, c0;
    Node(S, code, t, way, c);
    while S.rsib[yptr] == 0
      invariant Leads(t, way, c) && yptr == c.node && 0 < yptr < |S.father| == |S.rsib| && Rest(code, way) == Rest(code, way0)
      invariant S.father[yptr] == Above(way) && S.rsib[yptr] == SiblingOf(way)
      decreases |way|
    {
      if S.father[yptr] == 0 {
        Finished(code, S, t, way, c);
        done := true;
        return;
      }
      assert way != [];
      UpAgain(code, t, way, c, S);
      yptr := S.father[yptr];
      way, c := way[..|way| - 1], way[|way| - 1].tree;
      Node(S, code, t, way, c);
    }
    assert way != [];
    Across(code, t, way, c);
    yptr := S.rsib[yptr];
    ghost var w := way[|way| - 1];
    way, c := way[..|way| - 1] + [Step(w.tree, w.son + 1)], w.tree.sons[w.son + 1];
  }

  /** What the walk finds at a node. */
  lemma Node(S: ExprTree.Links, code: seq<Cell>, t: Tree, way: seq<Step>, c: Tree)
    requires Linked(S, t, 0, 0) && Leads(t, way, c) && |code| == |S.father|
    ensures 0 < c.node < |S.father| == |S.rsib| == |S.lson| == |code|
    ensures S.father[c.node] == Above(way) && S.rsib[c.node] == SiblingOf(way) && S.lson[c.node] == FirstOf(c.sons)
    ensures Prefix(code, c)[0] == code[c.node] && (FirstOf(c.sons) == 0 ==> Prefix(code, c) == [code[c.node]])
  {
    Here(S, t, way, c);
    if c.sons != [] {
      LinkedSon(S, c.sons, c.node, 0);
    }
  }

  lemma Finished(code: seq<Cell>, S: ExprTree.Links, t: Tree, way: seq<Step>, c: Tree)
    requires Linked(S, t, 0, 0) && Leads(t, way, c) && Above(way) == 0
    ensures Rest(code, way) == []
  {
    if way != [] {
      Here(S, t, way[..|way| - 1], way[|way| - 1].tree);
    }
  }

  /** An expression whose operands are trees of any kind: built, written out, and
      skipped.  What hung below the operands is written, too. */
  method Compile(c: ExprTree.Compiler, p: Publisher, e: seq<int>, ops: seq<int>, ghost subs: int -> seq<Tree>)
      returns (ghost t: Precedence.Exp)
    requires ExprTree.Even(c.L()) && |c.code| == |c.father| > 0 && |e| == |ops| + 1
    requires ExprTree.Operands(e, |c.father|) && ExprTree.Waiting(c.L(), e, 0) && p.Valid()
    requires forall n :: n in e ==> Below(c.L(), c.code, n, subs(n))
    modifies c`father, c`lson, c`rsib, c`sons, c`code, c`exprnd, p, p.block
    ensures Precedence.InOrder(t) == ExprTree.Sentence(e, old(|c.father|))
    ensures Precedence.Respects(ExprTree.OpPrec(c.prec, ops, old(|c.father|)), t)
    ensures ExprTree.Even(c.L()) && |c.code| == |c.father| && p.Valid()
    ensures p.Text() == old(p.Text()) + Prefix(Cells(c.L(), c.code), TreeOf(t, subs))
    ensures Skip(p.Text(), |old(p.Text())| - 1, 1) == At(|p.Text()| - 1)
  {
    hide ExprTree.Rep, Counted, Prefix, Skip, Linked, TreeOf, Precedence.InOrder, Precedence.Respects, ExprTree.Sentence,
      ExprTree.OpPrec, ExprTree.Operands, ExprTree.Waiting;
    ghost var S0, ops0 := c.L(), c.code;
    var root;
    ghost var base;
    root, t, base := c.Expression(e, ops);
    Published(S0, c.L(), ops0, c.code, e, base, t, subs);
    p.TrePub(root, c.L(), Cells(c.L(), c.code), TreeOf(t, subs));
  }
}
