/** What marking starts from: the permanent blocks listed in the collector's
    table, and the strings on the hash chains that have a value or attributes. */
module Roots {
  import opened Heap
  import opened Marking

  /** The cell that holds the link to the i-th string of a chain. */
  function LinkCell(bin: int, c: seq<int>, i: int): int
    requires 0 <= i <= |c|
  {
    if i == 0 then bin + LNKFLD else c[i - 1] + LNKFLD
  }

  /** Following the links from bin visits the strings c. */
  ghost predicate IsChain(m: seq<Descr>, W: World, bin: int, c: seq<int>) {
    && (forall i :: 0 <= i < |c| ==> ChainString(m, W, c[i]))
    && (forall i :: 0 <= i <= |c| ==> LinkAt(m, bin, c, i))
    && 0 < bin + LNKFLD < W.lo
  }

  ghost predicate ChainString(m: seq<Descr>, W: World, t: int) {
    t in W.dyn && 0 < t < |m| && m[t].sttl && W.lo <= t && t + LNKFLD < W.hi <= |m|
  }

  ghost predicate LinkAt(m: seq<Descr>, bin: int, c: seq<int>, i: int)
    requires 0 <= i <= |c|
  {
    && 0 < LinkCell(bin, c, i) < |m|
    && m[LinkCell(bin, c, i)].a == if i < |c| then c[i] else 0
  }

  /** A string with a value or with attributes stays even if nothing points to it. */
  predicate Kept(m: seq<Descr>, t: int)
    requires 0 <= t && t + ATTRIB < |m|
  {
    !Dcmp(m[t + 1], NULVCL) || m[t + ATTRIB].a != 0
  }

  /** A dynamic block is live when it can be reached from a listed permanent
      block or from a kept string, or is a kept string. */
  ghost predicate Live(m: seq<Descr>, W: World, P: set<int>, K: set<int>, t: int) {
    || (exists p :: p in P && Reach(m, W, p, t))
    || t in K
    || (exists u :: u in K && Reach(m, W, u, t))
  }

  /** Marking so far: exactly what P and K lead to is marked in m'. */
  ghost predicate MarkedFrom(m: seq<Descr>, m': seq<Descr>, W: World, P: set<int>, K: set<int>) {
    && Marked(m, m', W) && AllClosed(m, m', W)
    && (forall p :: p in P ==> Closed(m, m', p))
    && (forall u :: u in K ==> u in W.dyn && 0 < u < |m'| && m'[u].mark)
    && (forall t :: t in W.dyn && 0 < t < |m'| && m'[t].mark ==> Live(m, W, P, K, t))
  }

  lemma MarkedFromNothing(m: seq<Descr>, W: World)
    requires forall t :: t in W.dyn && 0 < t < |m| ==> !m[t].mark
    ensures MarkedFrom(m, m, W, {}, {})
  {
  }

  /** Marking is exact: a block is marked if and only if it is live. */
  lemma MarkedExactly(m: seq<Descr>, m': seq<Descr>, W: World, P: set<int>, K: set<int>, t: int)
    requires MarkedFrom(m, m', W, P, K) && t in W.dyn && 0 < t < |m'|
    ensures m'[t].mark <==> Live(m, W, P, K, t)
  {
    if exists p :: p in P && Reach(m, W, p, t) {
      var p :| p in P && Reach(m, W, p, t);
      var path :| IsPath(m, W, path) && path[0] == p && path[|path| - 1] == t;
      ReachMarked(m, m', W, p, path);
    } else if exists u :: u in K && Reach(m, W, u, t) {
      var u :| u in K && Reach(m, W, u, t);
      var path :| IsPath(m, W, path) && path[0] == u && path[|path| - 1] == t;
      assert Closed(m, m', u);
      ReachMarked(m, m', W, u, path);
    }
  }

  lemma ClosedMore(m: seq<Descr>, m': seq<Descr>, m'': seq<Descr>, W: World, t: int)
    requires Closed(m, m', t) && Marked(m', m'', W) && |m| == |m'|
    ensures Closed(m, m'', t)
  {
    forall j | SlotOf(m, t, j)
      ensures Good(m, m'', m[j])
    {
      assert Good(m, m', m[j]);
    }
  }

  /** One more permanent block has been marked from. */
  lemma RootDone(m: seq<Descr>, m': seq<Descr>, m'': seq<Descr>, W: World, P: set<int>, K: set<int>, s: int)
    requires MarkedFrom(m, m', W, P, K) && Marked(m', m'', W) && Marked(m, m'', W)
    requires AllClosed(m, m'', W) && Closed(m, m'', s)
    requires forall t :: t in W.dyn && 0 < t < |m''| && m''[t].mark ==> m'[t].mark || Reach(m, W, s, t)
    ensures MarkedFrom(m, m'', W, P + {s}, K)
  {
    forall p | p in P
      ensures Closed(m, m'', p)
    {
      ClosedMore(m, m', m'', W, p);
    }
    forall t | t in W.dyn && 0 < t < |m''| && m''[t].mark
      ensures Live(m, W, P + {s}, K, t)
    {
      if m'[t].mark {
        assert Live(m, W, P, K, t);
        if exists p :: p in P && Reach(m, W, p, t) {
          var p :| p in P && Reach(m, W, p, t);
          assert p in P + {s};
        }
      } else {
        assert s in P + {s};
      }
    }
  }

  /** A kept string that is marked already. */
  lemma StringSeen(m: seq<Descr>, m': seq<Descr>, W: World, P: set<int>, K: set<int>, u: int)
    requires MarkedFrom(m, m', W, P, K) && u in W.dyn && 0 < u < |m'| && m'[u].mark
    ensures MarkedFrom(m, m', W, P, K + {u})
  {
    forall t | t in W.dyn && 0 < t < |m'| && m'[t].mark
      ensures Live(m, W, P, K + {u}, t)
    {
      assert Live(m, W, P, K, t);
      if exists v :: v in K && Reach(m, W, v, t) {
        var v :| v in K && Reach(m, W, v, t);
        assert v in K + {u};
      }
    }
  }

  // ------------------------------------------ the collector's own pseudo-block

  /** The scratch cell x lies in no dynamic block and in no listed one. */
  ghost predicate Scratch(m: seq<Descr>, W: World, P: set<int>, x: int) {
    && 0 < x < W.lo <= |m| && !m[x].ttl
    && (forall t :: t in W.dyn ==> W.lo <= t)
    && forall p :: p in P ==> !SlotOf(m, p, x)
  }

  lemma {:induction false} TopScratch(m: seq<Descr>, x: int, d: Descr, a: int)
    requires 0 <= a < |m| && 0 <= x < |m| && d.ttl == m[x].ttl
    ensures TopOf(m[x := d], a) == TopOf(m, a)
  {
    TopSame(m, m[x := d], a);
  }

  lemma EdgeScratch(m: seq<Descr>, W: World, x: int, d: Descr, t: int, u: int)
    requires 0 < x < |m| && d.ttl == m[x].ttl && !m[x].ttl && !SlotOf(m, t, x) && t != x
    ensures Edge(m[x := d], W, t, u) <==> Edge(m, W, t, u)
  {
    var n := m[x := d];
    forall j | 0 <= j < |m| && j != x
      ensures Target(n, n[j]) == Target(m, m[j])
    {
      if m[j].ptr && 0 < m[j].a < |m| {
        TopScratch(m, x, d, m[j].a);
      }
    }
    assert forall j :: SlotOf(n, t, j) <==> SlotOf(m, t, j);
    if Edge(m, W, t, u) {
      var j :| SlotOf(m, t, j) && Target(m, m[j]) == u;
      assert SlotOf(n, t, j) && Target(n, n[j]) == u;
    }
    if Edge(n, W, t, u) {
      var j :| SlotOf(n, t, j) && Target(n, n[j]) == u;
      assert SlotOf(m, t, j) && Target(m, m[j]) == u;
    }
  }

  lemma {:induction false} PathScratch(m: seq<Descr>, W: World, P: set<int>, x: int, d: Descr, p: seq<int>)
    requires Scratch(m, W, P, x) && !d.ttl && |p| >= 2 && !SlotOf(m, p[0], x) && p[0] != x
    ensures IsPath(m[x := d], W, p) <==> IsPath(m, W, p)
  {
    hide Edge, SlotOf;
    var n := m[x := d];
    if IsPath(m, W, p) {
      forall i, j | 0 <= i && j == i + 1 && j < |p|
        ensures Edge(n, W, p[i], p[j])
      {
        PathNode(m, W, P, x, p, i);
        EdgeScratch(m, W, x, d, p[i], p[j]);
      }
    }
    if IsPath(n, W, p) {
      ScratchAgain(m, W, P, x, d);
      assert n[x := m[x]] == m;
      SlotAgain(m, x, d, p[0]);
      forall i, j | 0 <= i && j == i + 1 && j < |p|
        ensures Edge(m, W, p[i], p[j])
      {
        PathNode(n, W, P, x, p, i);
        EdgeScratch(n, W, x, m[x], p[i], p[j]);
      }
    }
  }

  lemma SlotAgain(m: seq<Descr>, x: int, d: Descr, t: int)
    requires 0 <= x < |m| && t != x
    ensures SlotOf(m[x := d], t, x) <==> SlotOf(m, t, x)
  {
  }

  lemma ScratchAgain(m: seq<Descr>, W: World, P: set<int>, x: int, d: Descr)
    requires Scratch(m, W, P, x) && !d.ttl
    ensures forall t :: t in W.dyn ==> W.lo <= t
    ensures 0 < x < W.lo <= |m[x := d]| && !m[x := d][x].ttl
  {
  }

  lemma PathNode(m: seq<Descr>, W: World, P: set<int>, x: int, p: seq<int>, i: int)
    requires 0 < x < W.lo <= |m| && (forall t :: t in W.dyn ==> W.lo <= t)
    requires IsPath(m, W, p) && 0 <= i < |p| && !SlotOf(m, p[0], x) && p[0] != x
    ensures !SlotOf(m, p[i], x) && p[i] != x
  {
    if i > 0 {
      assert Edge(m, W, p[i - 1], p[i]);
    }
  }

  lemma ReachScratch(m: seq<Descr>, W: World, P: set<int>, x: int, d: Descr, s: int, t: int)
    requires Scratch(m, W, P, x) && !d.ttl && !SlotOf(m, s, x) && s != x
    ensures Reach(m[x := d], W, s, t) <==> Reach(m, W, s, t)
  {
    if Reach(m, W, s, t) {
      var p :| IsPath(m, W, p) && p[0] == s && p[|p| - 1] == t;
      PathScratch(m, W, P, x, d, p);
    }
    if Reach(m[x := d], W, s, t) {
      var p :| IsPath(m[x := d], W, p) && p[0] == s && p[|p| - 1] == t;
      PathScratch(m, W, P, x, d, p);
    }
  }

  lemma LiveScratch(m: seq<Descr>, W: World, P: set<int>, K: set<int>, x: int, d: Descr, t: int)
    requires Scratch(m, W, P, x) && !d.ttl && x !in P && forall u :: u in K ==> u in W.dyn
    ensures Live(m[x := d], W, P, K, t) <==> Live(m, W, P, K, t)
  {
    forall p | p in P
      ensures Reach(m[x := d], W, p, t) <==> Reach(m, W, p, t)
    {
      ReachScratch(m, W, P, x, d, p, t);
    }
    forall u | u in K
      ensures Reach(m[x := d], W, u, t) <==> Reach(m, W, u, t)
    {
      ReachScratch(m, W, P, x, d, u, t);
    }
  }

  /** Storage before marking: blocks and pointers are in order, the listed
      blocks are permanent, and g is the pseudo-block with its one cell. */
  ghost predicate BaseOk(m: seq<Descr>, W: World, P: set<int>, g: int) {
    && Tiled(m, W) && Permanent(m, W)
    && (forall t :: t in W.dyn ==> BlockOk(m, W, t))
    && (forall p :: p in P ==> p in W.perm && BlockOk(m, W, p) && p != g + 1)
    && g in W.perm && 0 < g < |m| && m[g].v == 1
    && Scratch(m, W, P, g + 1)
  }

  lemma PtrScratch(m: seq<Descr>, W: World, x: int, d: Descr, e: Descr)
    requires 0 <= x < |m| && !m[x].ttl && !d.ttl && PtrOk(m, W, e)
    ensures PtrOk(m[x := d], W, e)
  {
    if e.ptr && e.a != 0 {
      TopScratch(m, x, d, e.a);
    }
  }

  lemma BlockScratch(m: seq<Descr>, W: World, x: int, d: Descr, t: int)
    requires 0 <= x < |m| && !m[x].ttl && !d.ttl && BlockOk(m, W, t) && t != x && !SlotOf(m, t, x)
    ensures BlockOk(m[x := d], W, t)
  {
    var n := m[x := d];
    forall j | t < j <= t + Traced(m[t])
      ensures PtrOk(n, W, n[j])
    {
      assert PtrOk(m, W, m[j]);
      PtrScratch(m, W, x, d, m[j]);
    }
  }

  lemma TitleScratch(m: seq<Descr>, x: int, d: Descr, t: int)
    requires 0 <= x < |m| && !m[x].ttl && !d.ttl && TitleAt(m, t)
    ensures t != x && 0 < t < |m| && TitleAt(m[x := d], t) && m[x := d][t] == m[t]
  {
  }

  lemma BaseScratch(m: seq<Descr>, W: World, P: set<int>, g: int, d: Descr)
    requires BaseOk(m, W, P, g) && !d.ttl
    ensures BaseOk(m[g + 1 := d], W, P, g)
  {
    hide BlockOk, TitleAt;
    var x, n := g + 1, m[g + 1 := d];
    forall i | 0 <= i < |W.dyn|
      ensures BlockAt(n, W, i)
    {
      assert BlockAt(m, W, i);
      TitleScratch(m, x, d, W.dyn[i]);
    }
    forall t | t in W.perm
      ensures 0 < t < |m| && TitleAt(n, t) && t != x && n[t] == m[t]
    {
      TitleScratch(m, x, d, t);
    }
    forall t | t in W.dyn || t in P
      ensures BlockOk(n, W, t)
    {
      BlockScratch(m, W, x, d, t);
    }
  }

  /** The pseudo-block now holds the address of a kept string. */
  lemma PseudoReady(m: seq<Descr>, W: World, P: set<int>, g: int, u: int)
    requires BaseOk(m, W, P, g) && u in W.dyn && m[g + 1].ptr && m[g + 1].a == u
    ensures Ready(m, W, g) && SlotOf(m, g, g + 1) && 0 < u < |m| && Target(m, m[g + 1]) == u
  {
    var i :| 0 <= i < |W.dyn| && W.dyn[i] == u;
    assert BlockAt(m, W, i);
    TopInBlock(m, u, u);
    assert PtrOk(m, W, m[g + 1]);
  }

  lemma MarkedScratch(m: seq<Descr>, m': seq<Descr>, W: World, P: set<int>, K: set<int>, g: int, d: Descr)
    requires BaseOk(m, W, P, g) && MarkedFrom(m, m', W, P, K) && !d.ttl
    ensures MarkedFrom(m[g + 1 := d], m'[g + 1 := d], W, P, K)
  {
    var x, n, n' := g + 1, m[g + 1 := d], m'[g + 1 := d];
    forall t | t in P || (t in W.dyn && 0 < t < |m'| && m'[t].mark)
      ensures Closed(n, n', t)
    {
      assert t in W.dyn ==> W.lo <= t;
      ClosedScratch(m, m', W, x, d, t);
    }
    forall t | t in W.dyn && 0 < t < |n'| && n'[t].mark
      ensures Live(n, W, P, K, t)
    {
      assert W.lo <= t;
      LiveScratch(m, W, P, K, x, d, t);
    }
  }

  lemma ClosedScratch(m: seq<Descr>, m': seq<Descr>, W: World, x: int, d: Descr, t: int)
    requires |m| == |m'| && 0 < x < |m| && !m[x].ttl && !d.ttl && !SlotOf(m, t, x) && t != x
    requires Closed(m, m', t)
    ensures Closed(m[x := d], m'[x := d], t)
  {
    var n, n' := m[x := d], m'[x := d];
    forall j | SlotOf(n, t, j)
      ensures Good(n, n', n[j])
    {
      assert SlotOf(m, t, j) && Good(m, m', m[j]);
      if m[j].ptr && 0 < m[j].a < |m| {
        TopScratch(m, x, d, m[j].a);
        assert Target(m, m[j]) >= 0 ==> m[Target(m, m[j])].ttl;
      }
    }
  }

  /** A kept string and all that it leads to have been marked through the
      pseudo-block. */
  lemma StringDone(m: seq<Descr>, m': seq<Descr>, m'': seq<Descr>, W: World, P: set<int>, K: set<int>, g: int, u: int)
    requires BaseOk(m, W, P, g) && MarkedFrom(m, m', W, P, K) && u in W.dyn && m[g + 1].ptr && m[g + 1].a == u
    requires Marked(m', m'', W) && Marked(m, m'', W) && AllClosed(m, m'', W) && Closed(m, m'', g)
    requires forall t :: t in W.dyn && 0 < t < |m''| && m''[t].mark ==> m'[t].mark || Reach(m, W, g, t)
    ensures MarkedFrom(m, m'', W, P, K + {u})
  {
    PseudoReady(m, W, P, g, u);
    assert Good(m, m'', m[g + 1]);
    forall p | p in P
      ensures Closed(m, m'', p)
    {
      ClosedMore(m, m', m'', W, p);
    }
    forall t | t in W.dyn && 0 < t < |m''| && m''[t].mark
      ensures Live(m, W, P, K + {u}, t)
    {
      if m'[t].mark {
        assert Live(m, W, P, K, t);
        if exists v :: v in K && Reach(m, W, v, t) {
          var v :| v in K && Reach(m, W, v, t);
          assert v in K + {u};
        }
      } else {
        ThroughPseudo(m, W, P, g, u, t);
        assert u in K + {u};
      }
    }
  }

  lemma ThroughPseudo(m: seq<Descr>, W: World, P: set<int>, g: int, u: int, t: int)
    requires BaseOk(m, W, P, g) && u in W.dyn && m[g + 1].ptr && m[g + 1].a == u && Reach(m, W, g, t)
    ensures t == u || Reach(m, W, u, t)
  {
    PseudoReady(m, W, P, g, u);
    var p :| IsPath(m, W, p) && p[0] == g && p[|p| - 1] == t;
    assert Edge(m, W, p[0], p[1]);
    var j :| SlotOf(m, g, j) && Target(m, m[j]) == p[1];
    assert j == g + 1;
    if |p| > 2 {
      var q := p[1..];
      assert forall i, j :: 0 <= i && j == i + 1 && j < |q| ==> q[i] == p[i + 1] && q[j] == p[j + 1];
      assert IsPath(m, W, q) && q[|q| - 1] == t;
    }
  }

  /** The permanent blocks that the table at ptr lists in its entries after i,
      up to n. */
  ghost function Listed(m: seq<Descr>, ptr: int, i: int, n: int): set<int>
    requires 0 <= ptr && 0 <= i && ptr + n < |m|
    decreases n - i
  {
    if i >= n then {}
    else (if m[ptr + i + 1].a != 0 then {m[ptr + i + 1].a} else {}) + Listed(m, ptr, i + 1, n)
  }

  lemma {:induction false} ListedFrom(m: seq<Descr>, ptr: int, i: int, n: int)
    requires 0 <= ptr && 0 <= i <= n && ptr + n < |m|
    ensures Listed(m, ptr, i, n) <= Listed(m, ptr, 0, n)
    decreases i
  {
    if i > 0 {
      ListedFrom(m, ptr, i - 1, n);
    }
  }

  lemma RootReady(m: seq<Descr>, m': seq<Descr>, W: World, P: set<int>, Q: set<int>, g: int, s: int)
    requires BaseOk(m, W, P, g) && MarkedFrom(m, m', W, Q, {}) && s in P
    ensures Ready(m, W, s) && Marked(m, m', W) && AllClosed(m, m', W)
  {
  }

  /** Cells of the permanent region that are not titles keep their contents. */
  lemma BelowKept(m: seq<Descr>, m': seq<Descr>, W: World, i: int)
    requires Marked(m, m', W) && 0 <= i < W.lo && i < |m| && forall t :: t in W.dyn ==> W.lo <= t
    ensures m'[i] == m[i]
  {
  }

  lemma EntryKept(m: seq<Descr>, m': seq<Descr>, W: World, P: set<int>, Q: set<int>, K: set<int>, g: int, i: int)
    requires BaseOk(m, W, P, g) && MarkedFrom(m, m', W, Q, K) && 0 <= i < W.lo
    ensures i < |m| == |m'| && m'[i] == m[i]
  {
    BelowKept(m, m', W, i);
  }

  lemma ListedNone(m: seq<Descr>, ptr: int, n: int)
    requires 0 <= ptr && 0 <= n && ptr + n < |m|
    ensures Listed(m, ptr, n, n) == {}
  {
  }

  // -------------------------------------------------------------- the strings

  /** The kept strings among the first i of a chain. */
  ghost function KeptOf(m: seq<Descr>, c: seq<int>, i: int): (K: set<int>)
    requires 0 <= i <= |c|
  {
    set u | u in c[..i] && 0 <= u && u + ATTRIB < |m| && Kept(m, u)
  }

  /** The kept strings on the first k chains. */
  ghost function KeptOn(m: seq<Descr>, chains: seq<seq<int>>, k: int): (K: set<int>)
    requires 0 <= k <= |chains|
    decreases k
  {
    if k == 0 then {} else KeptOn(m, chains, k - 1) + KeptOf(m, chains[k - 1], |chains[k - 1]|)
  }

  /** m with other contents in the collector's scratch cell. */
  ghost predicate ButScratch(m: seq<Descr>, n: seq<Descr>, x: int) {
    |n| == |m| && 0 <= x < |m| && n == m[x := n[x]]
  }

  lemma DescrsOfString(m: seq<Descr>, W: World, P: set<int>, g: int, t: int)
    requires BaseOk(m, W, P, g) && ChainString(m, W, t)
    ensures forall j :: t < j <= t + 3 ==> j < |m| && j !in W.dyn && j != g + 1
  {
    var i :| 0 <= i < |W.dyn| && W.dyn[i] == t;
    forall j | j in W.dyn && t < j <= t + 3
      ensures false
    {
      Inside(m, W, i, j);
    }
  }

  /** A string's fields read the same before and during marking. */
  lemma StringKept(m: seq<Descr>, n: seq<Descr>, m': seq<Descr>, W: World, P: set<int>, K: set<int>, g: int, t: int)
    requires BaseOk(m, W, P, g) && ButScratch(m, n, g + 1) && MarkedFrom(n, m', W, P, K) && ChainString(m, W, t)
    ensures 0 < t && t + 3 < |m'| == |m|
    ensures m'[t + 1] == m[t + 1] && m'[t + ATTRIB] == m[t + ATTRIB] && m'[t + LNKFLD] == m[t + LNKFLD]
  {
    DescrsOfString(m, W, P, g, t);
  }

  lemma LinkKept(m: seq<Descr>, n: seq<Descr>, m': seq<Descr>, W: World, P: set<int>, K: set<int>, g: int,
                 bin: int, c: seq<int>, i: int)
    requires BaseOk(m, W, P, g) && ButScratch(m, n, g + 1) && MarkedFrom(n, m', W, P, K)
    requires IsChain(m, W, bin, c) && 0 <= i <= |c| && bin + LNKFLD != g + 1
    ensures 0 < LinkCell(bin, c, i) < |m'| && m'[LinkCell(bin, c, i)].a == if i < |c| then c[i] else 0
    ensures i < |c| ==> ChainString(m, W, c[i]) && 0 < c[i]
  {
    assert LinkAt(m, bin, c, i);
    if i > 0 {
      assert ChainString(m, W, c[i - 1]);
      StringKept(m, n, m', W, P, K, g, c[i - 1]);
    } else {
      BelowKept(n, m', W, bin + LNKFLD);
    }
  }

  lemma KeptNext(m: seq<Descr>, c: seq<int>, i: int)
    requires 0 <= i < |c| && 0 <= c[i] && c[i] + ATTRIB < |m|
    ensures KeptOf(m, c, i + 1) == KeptOf(m, c, i) + if Kept(m, c[i]) then {c[i]} else {}
    ensures KeptOf(m, c, 0) == {}
  {
    assert c[..i + 1] == c[..i] + [c[i]];
  }

  lemma KeptNone(m: seq<Descr>, c: seq<int>)
    ensures KeptOf(m, c, 0) == {}
  {
  }

  lemma NoScratch(m: seq<Descr>, W: World, P: set<int>, g: int)
    requires BaseOk(m, W, P, g)
    ensures ButScratch(m, m, g + 1)
  {
  }

  lemma PseudoCell(m: seq<Descr>, W: World, P: set<int>, g: int)
    requires BaseOk(m, W, P, g)
    ensures 0 < g && g + 1 < |m|
  {
  }

  lemma MarkedParts(m: seq<Descr>, m': seq<Descr>, W: World, P: set<int>, K: set<int>)
    requires MarkedFrom(m, m', W, P, K)
    ensures |m| == |m'| && Marked(m, m', W) && AllClosed(m, m', W)
  {
  }
}
