/** What a whole collection does to memory: every live block, every listed
    block and every hash chain is what it was, up to the renaming of addresses. */
module Compaction {
  import opened Heap
  import opened Marking
  import opened Roots
  import opened Forwarding
  import opened Relinking
  import opened Relocation
  import opened Sliding

  /** What the cell d at place o of a block becomes: pointers are renamed, a
      string's characters stay, and its link may change its address. */
  ghost predicate CellMoved(m: seq<Descr>, W: World, title: Descr, d: Descr, e: Descr, o: int) {
    if o <= Traced(title) then e == Renamed(m, W, d)
    else if o == LNKFLD then e == d.(a := e.a)
    else e == d
  }

  /** Block i of m is at address to in n, its pointers renamed. */
  ghost predicate BlockMoved(m: seq<Descr>, n: seq<Descr>, W: World, i: int, to: int, mark: bool)
    requires 0 <= i < |W.dyn|
  {
    var from := W.dyn[i];
    && 0 < from < |m| && 0 < to && from + BkSize(m[from]) <= |m| && 0 < BkSize(m[from]) && to + BkSize(m[from]) <= |n|
    && n[to] == m[from].(a := Room(m, W, i), mark := mark)
    && forall o :: 0 < o < BkSize(m[from]) ==> CellAt(m, n, W, from, to, o)
  }

  ghost predicate CellAt(m: seq<Descr>, n: seq<Descr>, W: World, from: int, to: int, o: int)
    requires 0 < o && 0 < from && from + o < |m| && 0 < to && to + o < |n|
  {
    CellMoved(m, W, m[from], m[from + o], n[to + o], o)
  }

  /** Cell x lies behind the title of dynamic block i. */
  ghost predicate InBlock(m: seq<Descr>, W: World, i: int, x: int) {
    0 <= i < |W.dyn| && 0 < W.dyn[i] < |m| && W.dyn[i] < x < W.dyn[i] + BkSize(m[W.dyn[i]])
  }

  /** A cell of the permanent region: pointers of listed blocks are renamed, the
      links in the bins may change, all else stays. */
  ghost predicate LowCell(m: seq<Descr>, n: seq<Descr>, W: World, P: set<int>, oblist: int, obsiz: int, x: int)
    requires 0 <= x < |m| == |n|
  {
    if SlotIn(m, P, x) then n[x] == Renamed(m, W, m[x])
    else if oblist <= x - LNKFLD < oblist + obsiz then n[x] == m[x].(a := n[x].a)
    else n[x] == m[x]
  }

  // ------------------------------------------------------- up to the renaming

  /** The memory when all live blocks have been relocated. */
  ghost predicate Prepared(m: seq<Descr>, n1: seq<Descr>, n2: seq<Descr>, n3: seq<Descr>, W: World, P: set<int>,
                           oblist: int, chains: seq<seq<int>>) {
    && Forwarded(m, n1, W, |W.dyn|) && Chained(n1, W, oblist, chains)
    && Relinked(m, n1, n2, W, oblist, chains, |chains|)
    && Relocatable(m, n2, W, P) && Relocated(m, n2, n3, W, MarkedTo(m, W, |W.dyn|) + P) && Heads(m, n3, W)
    && forall p :: p in P ==> 0 < p < W.lo && p < |m| && p + Traced(m[p]) < W.lo
  }

  /** No cell inside a dynamic block belongs to another one. */
  lemma InsideOnly(m: seq<Descr>, W: World, i: int, x: int, u: int)
    requires Tiled(m, W) && InBlock(m, W, i, x) && u in W.dyn
    ensures 0 < u < |m| && u != x && (u != W.dyn[i] ==> !(u <= x < u + BkSize(m[u])))
  {
    InRegion(m, W, i);
    var k :| 0 <= k < |W.dyn| && W.dyn[k] == u;
    if k < i {
      Ascending(m, W, k, i);
    } else if k > i {
      Ascending(m, W, i, k);
    }
  }

  /** Links change in no more than their address. */
  lemma LinkChange(m: seq<Descr>, n1: seq<Descr>, n2: seq<Descr>, W: World, oblist: int, chains: seq<seq<int>>, x: int)
    requires Relinked(m, n1, n2, W, oblist, chains, |chains|) && 0 <= x < |n1|
    ensures n2[x] == n1[x].(a := n2[x].a)
    ensures n2[x] != n1[x] ==> LinkAmong(oblist, chains, |chains|, x)
  {
    if n2[x] != n1[x] {
      var l :| 0 <= l < |chains| && LinkOf(oblist + l, chains[l], x);
      assert ChainRelinked(m, n1, n2, W, oblist, chains, l);
      var j :| 0 <= j <= |chains[l]| && LinkCell(oblist + l, chains[l], j) == x;
      assert RelinkAt(m, n1, n2, W, oblist + l, chains[l], j, |chains[l]| + 1);
    }
  }

  /** A link inside a dynamic block is that block's link field. */
  lemma LinkPlace(m: seq<Descr>, n1: seq<Descr>, W: World, oblist: int, chains: seq<seq<int>>, i: int, x: int)
    requires Tiled(m, W) && Forwarded(m, n1, W, |W.dyn|) && Chained(n1, W, oblist, chains)
    requires InBlock(m, W, i, x)
    requires LinkAmong(oblist, chains, |chains|, x)
    ensures x == W.dyn[i] + LNKFLD && m[W.dyn[i]].sttl
  {
    var l :| 0 <= l < |chains| && LinkOf(oblist + l, chains[l], x);
    assert IsChain(n1, W, oblist + l, chains[l]);
    var j :| 0 <= j <= |chains[l]| && LinkCell(oblist + l, chains[l], j) == x;
    InRegion(m, W, i);
    if j > 0 {
      var t := chains[l][j - 1];
      assert ChainString(n1, W, t);
      StringRoom(m, n1, W, t);
      InsideOnly(m, W, i, x, t);
    }
  }

  lemma StringRoom(m: seq<Descr>, n: seq<Descr>, W: World, t: int)
    requires Tiled(m, W) && Headed(m, n, W) && ChainString(n, W, t)
    ensures 0 < t < |m| && m[t].sttl && BkSize(m[t]) >= 5
  {
    var i :| 0 <= i < |W.dyn| && W.dyn[i] == t;
    assert FwdAt(m, n, W, i, |W.dyn|) && BlockAt(m, W, i);
  }

  /** A cell of a live block before it slides. */
  lemma CellPrepared(m: seq<Descr>, n1: seq<Descr>, n2: seq<Descr>, n3: seq<Descr>, W: World, P: set<int>,
                     oblist: int, chains: seq<seq<int>>, i: int, o: int)
    requires Prepared(m, n1, n2, n3, W, P, oblist, chains) && 0 <= i < |W.dyn| && Stays(m, W, i)
    requires 0 < o && InBlock(m, W, i, W.dyn[i] + o)
    ensures 0 < W.dyn[i] && W.dyn[i] + o < |m| == |n3|
    ensures CellAt(m, n3, W, W.dyn[i], W.dyn[i], o)
  {
    hide BkSize, BlockAt, Chained, Forwarded, LinkAmong, MarkedTo, Prepared, Relinked, Relocatable, Relocated,
      Renamed, SlotIn, Stays, Tiled, Traced;
    var t, x, done := W.dyn[i], W.dyn[i] + o, MarkedTo(m, W, |W.dyn|) + P;
    PreparedParts(m, n1, n2, n3, W, P, oblist, chains);
    InRegion(m, W, i);
    RelocatedCell(m, n2, n3, W, done, x);
    if o <= Traced(m[t]) {
      LiveSlot(m, n2, W, P, i, x);
    } else {
      NoSlot(m, n2, W, P, i, x);
      ForwardCell(m, n1, W, i, x);
      LinkChange(m, n1, n2, W, oblist, chains, x);
      if n2[x] != n1[x] {
        LinkPlace(m, n1, W, oblist, chains, i, x);
      }
    }
  }

  lemma PreparedParts(m: seq<Descr>, n1: seq<Descr>, n2: seq<Descr>, n3: seq<Descr>, W: World, P: set<int>,
                      oblist: int, chains: seq<seq<int>>)
    requires Prepared(m, n1, n2, n3, W, P, oblist, chains)
    ensures |m| == |n1| == |n2| == |n3| && Tiled(m, W)
    ensures Forwarded(m, n1, W, |W.dyn|) && Chained(n1, W, oblist, chains)
    ensures Relinked(m, n1, n2, W, oblist, chains, |chains|) && Relocatable(m, n2, W, P)
    ensures Relocated(m, n2, n3, W, MarkedTo(m, W, |W.dyn|) + P)
    ensures forall p :: p in P ==> 0 < p < W.lo && p < |m| && p + Traced(m[p]) < W.lo
  {
  }

  lemma RelocatedCell(m: seq<Descr>, n2: seq<Descr>, n3: seq<Descr>, W: World, done: set<int>, x: int)
    requires Relocated(m, n2, n3, W, done) && 0 <= x < |m|
    ensures |n2| == |n3| == |m| && n3[x] == if SlotIn(m, done, x) then Renamed(m, W, n2[x]) else n2[x]
  {
  }

  lemma LiveSlot(m: seq<Descr>, n2: seq<Descr>, W: World, P: set<int>, i: int, x: int)
    requires Relocatable(m, n2, W, P) && 0 <= i < |W.dyn| && Stays(m, W, i)
    requires W.dyn[i] < x <= W.dyn[i] + Traced(m[W.dyn[i]])
    ensures 0 <= x < |m| == |n2| && SlotIn(m, MarkedTo(m, W, |W.dyn|) + P, x) && n2[x] == m[x]
  {
    hide NewHome, TargetOk, TitleAt;
    assert Followed(m, W, W.dyn[i]);
    SlotTop(m, W, W.dyn[i], x);
    assert W.dyn[i] in MarkedTo(m, W, |W.dyn|) + P;
  }

  lemma ForwardCell(m: seq<Descr>, n1: seq<Descr>, W: World, i: int, x: int)
    requires Tiled(m, W) && Forwarded(m, n1, W, |W.dyn|) && InBlock(m, W, i, x)
    ensures 0 <= x < |m| == |n1| && n1[x] == m[x]
  {
    InRegion(m, W, i);
    if x in W.dyn {
      InsideOnly(m, W, i, x, x);
    }
  }

  /** What lies behind the followed descriptors of a dynamic block is renamed
      for no block. */
  lemma NoSlot(m: seq<Descr>, n2: seq<Descr>, W: World, P: set<int>, i: int, x: int)
    requires Relocatable(m, n2, W, P) && InBlock(m, W, i, x) && Stays(m, W, i)
    requires forall p :: p in P ==> 0 < p < W.lo && p < |m| && p + Traced(m[p]) < W.lo
    requires W.dyn[i] + Traced(m[W.dyn[i]]) < x
    ensures 0 <= x < |m| && !SlotIn(m, MarkedTo(m, W, |W.dyn|) + P, x)
  {
    InRegion(m, W, i);
    var u := TopOf(m, x);
    if u in MarkedTo(m, W, |W.dyn|) && SlotOf(m, u, x) {
      InsideOnly(m, W, i, x, u);
      DynTitle(m, W, u);
    }
  }

  /** A live block before it slides. */
  lemma BlockPrepared(m: seq<Descr>, n1: seq<Descr>, n2: seq<Descr>, n3: seq<Descr>, W: World, P: set<int>,
                      oblist: int, chains: seq<seq<int>>, i: int)
    requires Prepared(m, n1, n2, n3, W, P, oblist, chains) && 0 <= i < |W.dyn| && Stays(m, W, i)
    ensures BlockMoved(m, n3, W, i, W.dyn[i], true)
  {
    hide Prepared, CellAt, Room;
    var t := W.dyn[i];
    TitlePrepared(m, n1, n2, n3, W, P, oblist, chains, i);
    forall o | 0 < o < BkSize(m[t])
      ensures CellAt(m, n3, W, t, t, o)
    {
      CellPrepared(m, n1, n2, n3, W, P, oblist, chains, i, o);
    }
  }

  lemma TitlePrepared(m: seq<Descr>, n1: seq<Descr>, n2: seq<Descr>, n3: seq<Descr>, W: World, P: set<int>,
                      oblist: int, chains: seq<seq<int>>, i: int)
    requires Prepared(m, n1, n2, n3, W, P, oblist, chains) && 0 <= i < |W.dyn| && Stays(m, W, i)
    ensures BlockAt(m, W, i) && |n3| == |m| && n3[W.dyn[i]] == m[W.dyn[i]].(a := Room(m, W, i), mark := true)
  {
    hide Room, NewHome, Relinked, Relocated, Chained, Forwarded;
    InRegion(m, W, i);
    HomeIs(m, W, i);
    assert HeadAt(m, n3, W, W.dyn[i]);
  }

  /** A block that has slid is what it was. */
  lemma BlockSlid(m: seq<Descr>, n3: seq<Descr>, n4: seq<Descr>, W: World, i: int)
    requires 0 <= i < |W.dyn| && BlockMoved(m, n3, W, i, W.dyn[i], true) && SlidAt(m, n3, n4, W, i)
    ensures BlockMoved(m, n4, W, i, Room(m, W, i), false)
  {
    hide CellMoved, Room, BkSize;
    var t, to, size := W.dyn[i], Room(m, W, i), BkSize(m[W.dyn[i]]);
    forall o | 0 < o < size
      ensures CellAt(m, n4, W, t, to, o)
    {
      assert CellAt(m, n3, W, t, t, o);
      assert n4[to + o] == n4[to + 1..to + size][o - 1];
      assert n3[t + o] == n3[t + 1..t + size][o - 1];
    }
  }

  /** A cell of the permanent region before the blocks slide. */
  lemma LowPrepared(m: seq<Descr>, n1: seq<Descr>, n2: seq<Descr>, n3: seq<Descr>, W: World, P: set<int>,
                    oblist: int, chains: seq<seq<int>>, x: int)
    requires Prepared(m, n1, n2, n3, W, P, oblist, chains) && 0 <= x < W.lo
    ensures x < |m| == |n3| && LowCell(m, n3, W, P, oblist, |chains|, x)
  {
    hide Renamed, Heads, Chained, Relinked;
    var all := MarkedTo(m, W, |W.dyn|);
    forall t | t in all
      ensures t >= W.lo
    {
      DynTitle(m, W, t);
    }
    assert SlotIn(m, all + P, x) <==> SlotIn(m, P, x);
    if !SlotIn(m, P, x) {
      forall t | t in W.dyn
        ensures t >= W.lo
      {
        DynTitle(m, W, t);
      }
      assert n1[x] == m[x];
      LinkChange(m, n1, n2, W, oblist, chains, x);
      if n2[x] != n1[x] {
        LowLink(n1, W, oblist, chains, x);
      }
    }
  }

  lemma LowLink(n1: seq<Descr>, W: World, oblist: int, chains: seq<seq<int>>, x: int)
    requires Chained(n1, W, oblist, chains) && LinkAmong(oblist, chains, |chains|, x) && x < W.lo
    ensures oblist <= x - LNKFLD < oblist + |chains|
  {
    var l :| 0 <= l < |chains| && LinkOf(oblist + l, chains[l], x);
    assert IsChain(n1, W, oblist + l, chains[l]);
    var j :| 0 <= j <= |chains[l]| && LinkCell(oblist + l, chains[l], j) == x;
    assert j > 0 ==> ChainString(n1, W, chains[l][j - 1]);
  }

  // --------------------------------------------------------------- the chains

  /** The new links: of bin l, and of every string that stays. */
  ghost predicate LinkMoved(m: seq<Descr>, n: seq<Descr>, W: World, bin: int, c: seq<int>, j: int)
    requires 0 <= j <= |c|
  {
    (j == 0 || Alive(m, c[j - 1])) ==>
      var x := (if j == 0 then bin else NewHome(m, W, c[j - 1])) + LNKFLD;
      0 <= x < |n| && n[x].a == NextKept(m, W, c, j)
  }

  lemma LinkPrepared(m: seq<Descr>, n1: seq<Descr>, n2: seq<Descr>, n3: seq<Descr>, W: World, P: set<int>,
                     oblist: int, chains: seq<seq<int>>, l: int, j: int)
    requires Prepared(m, n1, n2, n3, W, P, oblist, chains) && 0 <= l < |chains| && 0 <= j <= |chains[l]|
    requires j == 0 || Alive(m, chains[l][j - 1])
    requires !SlotIn(m, P, oblist + l + LNKFLD)
    ensures var x := LinkCell(oblist + l, chains[l], j); 0 < x < |n3| && n3[x].a == NextKept(m, W, chains[l], j)
  {
    hide NextKept, Renamed, Heads;
    var bin, c := oblist + l, chains[l];
    var x := LinkCell(bin, c, j);
    assert ChainRelinked(m, n1, n2, W, oblist, chains, l);
    assert RelinkAt(m, n1, n2, W, bin, c, j, |c| + 1);
    assert 0 < bin + LNKFLD < |m| by {
      assert IsChain(n1, W, bin, c);
    }
    LinkNoSlot(m, n1, n2, W, P, oblist, chains, l, j);
  }

  lemma LinkNoSlot(m: seq<Descr>, n1: seq<Descr>, n2: seq<Descr>, W: World, P: set<int>,
                   oblist: int, chains: seq<seq<int>>, l: int, j: int)
    requires Forwarded(m, n1, W, |W.dyn|) && Chained(n1, W, oblist, chains) && Relocatable(m, n2, W, P)
    requires forall p :: p in P ==> 0 < p < W.lo && p < |m| && p + Traced(m[p]) < W.lo
    requires 0 <= l < |chains| && 0 <= j <= |chains[l]| && (j == 0 || Alive(m, chains[l][j - 1]))
    requires 0 < oblist + l + LNKFLD < |m| && !SlotIn(m, P, oblist + l + LNKFLD)
    ensures var x := LinkCell(oblist + l, chains[l], j); 0 < x < |m| && !SlotIn(m, MarkedTo(m, W, |W.dyn|) + P, x)
  {
    var bin, c := oblist + l, chains[l];
    assert IsChain(n1, W, bin, c);
    if j > 0 {
      assert ChainString(n1, W, c[j - 1]);
      StringRoom(m, n1, W, c[j - 1]);
      var i :| 0 <= i < |W.dyn| && W.dyn[i] == c[j - 1];
      NoSlot(m, n2, W, P, i, LinkCell(bin, c, j));
    } else {
      LowSlot(m, W, P, bin + LNKFLD);
    }
  }

  lemma LowSlot(m: seq<Descr>, W: World, P: set<int>, x: int)
    requires Tiled(m, W) && 0 <= x < W.lo
    ensures SlotIn(m, MarkedTo(m, W, |W.dyn|) + P, x) <==> SlotIn(m, P, x)
  {
    forall t | t in MarkedTo(m, W, |W.dyn|)
      ensures t >= W.lo
    {
      DynTitle(m, W, t);
    }
  }

  lemma LinkSlid(m: seq<Descr>, n1: seq<Descr>, n3: seq<Descr>, n4: seq<Descr>, W: World, oblist: int, chains: seq<seq<int>>, l: int, j: int)
    requires Tiled(m, W) && Headed(m, n1, W) && Chained(n1, W, oblist, chains) && Slid(m, n3, n4, W, |W.dyn|)
    requires 0 <= l < |chains| && 0 <= j <= |chains[l]| && (j == 0 || Alive(m, chains[l][j - 1]))
    requires var x := LinkCell(oblist + l, chains[l], j); 0 < x < |n3| && n3[x].a == NextKept(m, W, chains[l], j)
    ensures LinkMoved(m, n4, W, oblist + l, chains[l], j)
  {
    hide NextKept, Same;
    var bin, c := oblist + l, chains[l];
    assert IsChain(n1, W, bin, c);
    if j > 0 {
      assert ChainString(n1, W, c[j - 1]);
      StringRoom(m, n1, W, c[j - 1]);
      var i :| 0 <= i < |W.dyn| && W.dyn[i] == c[j - 1];
      HomeIs(m, W, i);
      assert SlidAt(m, n3, n4, W, i);
      SameLink(n3, n4, W.dyn[i], Room(m, W, i), BkSize(m[W.dyn[i]]));
    } else {
      assert n4[bin + LNKFLD] == n4[..W.lo][bin + LNKFLD] && n3[bin + LNKFLD] == n3[..W.lo][bin + LNKFLD];
    }
  }

  lemma SameLink(n3: seq<Descr>, n4: seq<Descr>, from: int, to: int, size: int)
    requires Same(n3, n4, from, to, size) && size >= 5
    ensures 0 < from && from + LNKFLD < |n3| && 0 < to && to + LNKFLD < |n4| && n4[to + LNKFLD] == n3[from + LNKFLD]
  {
    assert n4[to + LNKFLD] == n4[to + 1..to + size][LNKFLD - 1];
    assert n3[from + LNKFLD] == n3[from + 1..from + size][LNKFLD - 1];
  }
}
