/** What a collection keeps, told cell by cell: two cells of a string, and all
    cells of any other block. */
module Retention {
  import opened Heap
  import opened Marking
  import opened Roots
  import opened Forwarding
  import opened Relinking
  import opened Soundness
  import opened Survival

  /** Descriptor d refers to the block at u or to one of its cells. */
  ghost predicate Into(m: seq<Descr>, d: Descr, u: int) {
    0 < u < |m| && d.ptr && u <= d.a <= u + if m[u].sttl then ATTRIB else m[u].v
  }

  /** What a collection may not throw away. */
  ghost function Living(m: seq<Descr>, W: World, T: Tables, chains: seq<seq<int>>): set<int> {
    set t | t in W.dyn && Live(m, W, Bases(m, T), KeptOn(m, chains, |chains|), t)
  }

  /** The string at t has a value or attributes. */
  ghost predicate InUse(m: seq<Descr>, t: int) {
    0 < t < |m| - ATTRIB && (m[t + 1].(chars := "") != NULVCL || m[t + ATTRIB].a != 0)
  }

  /** The dynamic blocks that the cells of a listed permanent block point into
      are in S. */
  ghost predicate HoldsListed(m: seq<Descr>, W: World, T: Tables, S: set<int>) {
    forall x, j, u :: (
        && T.prmptr < x <= T.prmptr + T.prmdx && 0 <= x < |m| && 0 < m[x].a < j < |m| && j <= m[x].a + m[m[x].a].v
        && u in W.dyn && Into(m, m[j], u))
      ==> u in S
  }

  /** So are those that a block of S points into: of a string, its value and
      its attributes. */
  ghost predicate HoldsOn(m: seq<Descr>, W: World, S: set<int>) {
    && (forall t, j, u :: (t in S && 0 < t < j < |m| && !m[t].sttl && j <= t + m[t].v && u in W.dyn && Into(m, m[j], u)) ==> u in S)
    && (forall t, u :: (t in S && 0 < t < |m| - 1 && m[t].sttl && u in W.dyn && Into(m, m[t + 1], u)) ==> u in S)
    && (forall t, u :: (t in S && 0 < t < |m| - ATTRIB && m[t].sttl && u in W.dyn && Into(m, m[t + ATTRIB], u)) ==> u in S)
  }

  /** The strings in use are in S, and all that S and the listed blocks lead to. */
  ghost predicate Holding(m: seq<Descr>, W: World, T: Tables, chains: seq<seq<int>>, S: set<int>) {
    && (forall k, j :: 0 <= k < |chains| && 0 <= j < |chains[k]| && InUse(m, chains[k][j]) ==> chains[k][j] in S)
    && HoldsListed(m, W, T, S) && HoldsOn(m, W, S)
  }

  // -------------------------------------------------------- the live blocks hold

  lemma SoundTiled(m: seq<Descr>, W: World, T: Tables, chains: seq<seq<int>>)
    requires Sound(m, W, T, chains)
    ensures Tiled(m, W) && Permanent(m, W)
  {
  }

  lemma IntoTarget(m: seq<Descr>, W: World, d: Descr, u: int)
    requires Into(m, d, u) && TitleAt(m, u)
    ensures Target(m, d) == u
  {
    TopInBlock(m, u, d.a);
  }

  lemma SlotEdge(m: seq<Descr>, W: World, t: int, j: int, u: int)
    requires SlotOf(m, t, j) && u in W.dyn && TitleAt(m, u) && Into(m, m[j], u)
    ensures Edge(m, W, t, u)
  {
    IntoTarget(m, W, m[j], u);
  }

  /** Whatever a live block leads to is live. */
  lemma LiveFurther(m: seq<Descr>, W: World, P: set<int>, K: set<int>, t: int, u: int)
    requires Live(m, W, P, K, t) && Edge(m, W, t, u)
    ensures Live(m, W, P, K, u)
  {
    hide Edge, Reach;
    if p :| p in P && Reach(m, W, p, t) {
      ReachFurther(m, W, p, t, u);
    } else if t in K {
      ReachEdge(m, W, t, u);
    } else {
      var v :| v in K && Reach(m, W, v, t);
      ReachFurther(m, W, v, t, u);
    }
  }

  lemma {:induction false} KeptOnHas(m: seq<Descr>, chains: seq<seq<int>>, k: int, l: int, j: int)
    requires 0 <= l < k <= |chains| && 0 <= j < |chains[l]| && InUse(m, chains[l][j])
    ensures chains[l][j] in KeptOn(m, chains, k)
    decreases k
  {
    if l < k - 1 {
      KeptOnHas(m, chains, k - 1, l, j);
    } else {
      var c := chains[l];
      assert c[..|c|] == c && Kept(m, c[j]);
      assert c[j] in KeptOf(m, c, |c|);
    }
  }

  lemma {:induction false} KeptOnIs(m: seq<Descr>, chains: seq<seq<int>>, k: int, t: int)
    requires 0 <= k <= |chains| && t in KeptOn(m, chains, k)
    ensures exists l, j :: 0 <= l < k && 0 <= j < |chains[l]| && chains[l][j] == t && (t > 0 ==> InUse(m, t))
    decreases k
  {
    var c := chains[k - 1];
    if t in KeptOf(m, c, |c|) {
      var j :| 0 <= j < |c| && c[j] == t;
      assert chains[k - 1][j] == t;
    } else {
      KeptOnIs(m, chains, k - 1, t);
    }
  }

  lemma {:induction false} ListedHas(m: seq<Descr>, ptr: int, i: int, n: int, x: int)
    requires 0 <= ptr && 0 <= i && ptr + n < |m| && ptr + i < x <= ptr + n && m[x].a != 0
    ensures m[x].a in Listed(m, ptr, i, n)
    decreases n - i
  {
    if ptr + i + 1 < x {
      ListedHas(m, ptr, i + 1, n, x);
    }
  }

  lemma {:induction false} ListedIs(m: seq<Descr>, ptr: int, i: int, n: int, p: int)
    requires 0 <= ptr && 0 <= i && ptr + n < |m| && p in Listed(m, ptr, i, n)
    ensures exists x :: ptr + i < x <= ptr + n && m[x].a == p && p != 0
    decreases n - i
  {
    if m[ptr + i + 1].a != p || p == 0 {
      ListedIs(m, ptr, i + 1, n, p);
    } else {
      assert ptr + i < ptr + i + 1 <= ptr + n;
    }
  }

  lemma ListedEntry(m: seq<Descr>, W: World, T: Tables, chains: seq<seq<int>>, x: int)
    requires Sound(m, W, T, chains) && T.prmptr < x <= T.prmptr + T.prmdx && 0 <= x < |m| && m[x].a != 0
    ensures m[x].a in Bases(m, T) && 0 < m[x].a < |m| && !m[m[x].a].sttl
  {
    hide BaseOk, Placed, Chained;
    SoundParts(m, W, T, chains);
    ListedHas(m, T.prmptr, 0, T.prmdx, x);
    BaseBlock(m, W, T, chains, m[x].a);
  }

  lemma BaseBlock(m: seq<Descr>, W: World, T: Tables, chains: seq<seq<int>>, p: int)
    requires Sound(m, W, T, chains) && p in Bases(m, T)
    ensures p in W.perm && 0 < p < |m| && !m[p].sttl && p + m[p].v < |m|
  {
    hide Bases;
  }

  lemma LivingHolds(m: seq<Descr>, W: World, T: Tables, chains: seq<seq<int>>)
    requires Sound(m, W, T, chains)
    ensures Holding(m, W, T, chains, Living(m, W, T, chains))
  {
    hide Bases, KeptOn, Live, Sound, InUse, HoldsListed, HoldsOn;
    var P, K, S := Bases(m, T), KeptOn(m, chains, |chains|), Living(m, W, T, chains);
    forall k, j | 0 <= k < |chains| && 0 <= j < |chains[k]| && InUse(m, chains[k][j])
      ensures chains[k][j] in S
    {
      KeptOnHas(m, chains, |chains|, k, j);
      InChain(m, W, T, chains, k, j);
      KeptLive(m, W, P, K, chains[k][j]);
    }
    LivingListed(m, W, T, chains);
    LivingOn(m, W, T, chains);
  }

  lemma LivingListed(m: seq<Descr>, W: World, T: Tables, chains: seq<seq<int>>)
    requires Sound(m, W, T, chains)
    ensures HoldsListed(m, W, T, Living(m, W, T, chains))
  {
    hide Bases, KeptOn, Live, Sound, Into;
    forall x, j, u | (
        && T.prmptr < x <= T.prmptr + T.prmdx && 0 <= x < |m| && 0 < m[x].a < j < |m| && j <= m[x].a + m[m[x].a].v
        && u in W.dyn && Into(m, m[j], u))
      ensures u in Living(m, W, T, chains)
    {
      ListedEntry(m, W, T, chains, x);
      FromCell(m, W, T, chains, m[x].a, j, u);
    }
  }

  lemma LivingOn(m: seq<Descr>, W: World, T: Tables, chains: seq<seq<int>>)
    requires Sound(m, W, T, chains)
    ensures HoldsOn(m, W, Living(m, W, T, chains))
  {
    hide Bases, KeptOn, Live, Sound, Into;
    var S := Living(m, W, T, chains);
    forall t, j, u | t in S && 0 < t < j < |m| && !m[t].sttl && j <= t + m[t].v && u in W.dyn && Into(m, m[j], u)
      ensures u in S
    {
      FromCell(m, W, T, chains, t, j, u);
    }
    forall t, u | t in S && 0 < t < |m| - 1 && m[t].sttl && u in W.dyn && Into(m, m[t + 1], u)
      ensures u in S
    {
      FromCell(m, W, T, chains, t, t + 1, u);
    }
    forall t, u | t in S && 0 < t < |m| - ATTRIB && m[t].sttl && u in W.dyn && Into(m, m[t + ATTRIB], u)
      ensures u in S
    {
      FromCell(m, W, T, chains, t, t + ATTRIB, u);
    }
  }

  /** What a cell of a listed or of a live block points into is live. */
  lemma FromCell(m: seq<Descr>, W: World, T: Tables, chains: seq<seq<int>>, t: int, j: int, u: int)
    requires Sound(m, W, T, chains) && 0 < t < j < |m| && (t in Bases(m, T) || t in Living(m, W, T, chains))
    requires if m[t].sttl then j == t + 1 || j == t + ATTRIB else j <= t + m[t].v
    requires u in W.dyn && Into(m, m[j], u)
    ensures u in Living(m, W, T, chains)
  {
    hide Bases, KeptOn, Live, Sound, Edge, Into;
    var P, K := Bases(m, T), KeptOn(m, chains, |chains|);
    SoundTiled(m, W, T, chains);
    DynTitle(m, W, u);
    SlotEdge(m, W, t, j, u);
    if t in P {
      BaseLive(m, W, P, K, t, u);
    } else {
      LiveFurther(m, W, P, K, t, u);
    }
  }

  lemma KeptLive(m: seq<Descr>, W: World, P: set<int>, K: set<int>, t: int)
    requires t in K
    ensures Live(m, W, P, K, t)
  {
  }

  lemma BaseLive(m: seq<Descr>, W: World, P: set<int>, K: set<int>, p: int, u: int)
    requires p in P && Edge(m, W, p, u)
    ensures Live(m, W, P, K, u)
  {
    hide Edge, Reach;
    ReachEdge(m, W, p, u);
  }

  lemma InChain(m: seq<Descr>, W: World, T: Tables, chains: seq<seq<int>>, k: int, j: int)
    requires Sound(m, W, T, chains) && 0 <= k < |chains| && 0 <= j < |chains[k]|
    ensures chains[k][j] in W.dyn && 0 < chains[k][j]
  {
    hide BaseOk, Placed, LinkAt;
    assert IsChain(m, W, T.oblist + k, chains[k]);
    assert ChainString(m, W, chains[k][j]);
  }

  // ---------------------------------------------------- and nothing else is live

  lemma EdgeInto(m: seq<Descr>, W: World, T: Tables, chains: seq<seq<int>>, t: int, u: int) returns (j: int)
    requires Sound(m, W, T, chains) && (t in W.dyn || t in Bases(m, T)) && Edge(m, W, t, u)
    ensures SlotOf(m, t, j) && Into(m, m[j], u)
  {
    hide Bases, Placed, Chained, Tiled, Permanent, Homed, Scratch;
    j :| SlotOf(m, t, j) && Target(m, m[j]) == u;
    assert BlockOk(m, W, t);
    assert PtrOk(m, W, m[j]);
    assert u > 0 by {
      DynTitle(m, W, u);
    }
  }

  lemma HeldNext(m: seq<Descr>, W: World, T: Tables, chains: seq<seq<int>>, S: set<int>, t: int, u: int)
    requires Sound(m, W, T, chains) && Holding(m, W, T, chains, S) && Edge(m, W, t, u) && t in S && t in W.dyn
    ensures u in S
  {
    hide Sound, Edge, Into, InUse, HoldsListed;
    var j := EdgeInto(m, W, T, chains, t, u);
    assert u in W.dyn by { EdgeDyn(m, W, t, u); }
    if m[t].sttl {
      assert j == t + 1 || j == t + ATTRIB;
      assert 0 < t < |m| - ATTRIB by { SoundTiled(m, W, T, chains); DynTitle(m, W, t); }
    }
  }

  lemma EdgeDyn(m: seq<Descr>, W: World, t: int, u: int)
    requires Edge(m, W, t, u)
    ensures u in W.dyn
  {
  }

  lemma HeldFirst(m: seq<Descr>, W: World, T: Tables, chains: seq<seq<int>>, S: set<int>, p: int, u: int)
    requires Sound(m, W, T, chains) && Holding(m, W, T, chains, S) && Edge(m, W, p, u) && p in Bases(m, T)
    ensures u in S
  {
    hide Sound, Edge, Into, InUse, Bases, HoldsOn;
    var j := EdgeInto(m, W, T, chains, p, u);
    EdgeDyn(m, W, p, u);
    BaseBlock(m, W, T, chains, p);
    SoundParts(m, W, T, chains);
    ListedIs(m, T.prmptr, 0, T.prmdx, p);
  }

  lemma {:induction false} HeldPath(m: seq<Descr>, W: World, T: Tables, chains: seq<seq<int>>, S: set<int>, q: seq<int>)
    requires Sound(m, W, T, chains) && Holding(m, W, T, chains, S) && IsPath(m, W, q)
    requires q[0] in Bases(m, T) || (q[0] in S && q[0] in W.dyn)
    ensures q[|q| - 1] in S && q[|q| - 1] in W.dyn
    decreases |q|
  {
    hide Sound, Holding, Edge, Bases;
    var n := |q| - 1;
    assert Edge(m, W, q[n - 1], q[n]);
    EdgeDyn(m, W, q[n - 1], q[n]);
    if n > 1 {
      var r := q[..n];
      assert forall i, j :: 0 <= i && j == i + 1 && j < |r| ==> r[i] == q[i] && r[j] == q[j];
      HeldPath(m, W, T, chains, S, r);
      HeldNext(m, W, T, chains, S, q[n - 1], q[n]);
    } else if q[0] in Bases(m, T) {
      HeldFirst(m, W, T, chains, S, q[0], q[1]);
    } else {
      HeldNext(m, W, T, chains, S, q[0], q[1]);
    }
  }

  /** The live blocks are the least that must be kept. */
  lemma LivingLeast(m: seq<Descr>, W: World, T: Tables, chains: seq<seq<int>>, S: set<int>)
    requires Sound(m, W, T, chains) && Holding(m, W, T, chains, S)
    ensures Living(m, W, T, chains) <= S
  {
    hide Sound, Holding, Edge, Bases, KeptOn;
    var P, K := Bases(m, T), KeptOn(m, chains, |chains|);
    forall t | t in Living(m, W, T, chains)
      ensures t in S
    {
      if p :| p in P && Reach(m, W, p, t) {
        var q :| |q| >= 2 && IsPath(m, W, q) && q[0] == p && q[|q| - 1] == t;
        HeldPath(m, W, T, chains, S, q);
      } else if t in K {
        HeldString(m, W, T, chains, S, t);
      } else {
        var v :| v in K && Reach(m, W, v, t);
        var q :| |q| >= 2 && IsPath(m, W, q) && q[0] == v && q[|q| - 1] == t;
        HeldString(m, W, T, chains, S, v);
        HeldPath(m, W, T, chains, S, q);
      }
    }
  }

  lemma HeldString(m: seq<Descr>, W: World, T: Tables, chains: seq<seq<int>>, S: set<int>, t: int)
    requires Sound(m, W, T, chains) && Holding(m, W, T, chains, S) && t in KeptOn(m, chains, |chains|)
    ensures t in S && t in W.dyn
  {
    hide Sound, InUse, KeptOn, Into;
    KeptOnIs(m, chains, |chains|, t);
    var l, j :| 0 <= l < |chains| && 0 <= j < |chains[l]| && chains[l][j] == t && (t > 0 ==> InUse(m, t));
    InChain(m, W, T, chains, l, j);
  }

  // ------------------------------------------------------------------ the cells

  /** Descriptor e is d, but for the new address of the block that d points
      into, which is kept. */
  ghost predicate Moved(m0: seq<Descr>, m: seq<Descr>, W: World, T: Tables, chains: seq<seq<int>>, d: Descr, e: Descr) {
    && e == d.(a := e.a)
    && (!d.ptr || d.a == 0 ==> e == d)
    && (forall u :: u in W.dyn && Into(m0, d, u) ==>
          u in Living(m0, W, T, chains) && e.a - NewHome(m, W, u) == d.a - u)
    && (forall p :: p in W.perm && Into(m0, d, p) ==> e == d)
  }

  lemma KeptMoved(m0: seq<Descr>, W: World, m: seq<Descr>, m1: seq<Descr>, T: Tables, chains: seq<seq<int>>, d: Descr, e: Descr)
    requires Sound(m0, W, T, chains) && KeptSince(m0, m, m1, W, d, e)
    requires forall u :: u in W.dyn && Into(m0, d, u) ==> u in Living(m0, W, T, chains)
    ensures Moved(m0, m, W, T, chains, d, e)
  {
    hide Living, Sound;
    SoundTiled(m0, W, T, chains);
    forall u | (u in W.dyn || u in W.perm) && Into(m0, d, u)
      ensures TopOf(m0, d.a) == u && d.a != 0
    {
      if u in W.dyn {
        DynTitle(m0, W, u);
      }
      IntoTarget(m0, W, d, u);
    }
    forall p | p in W.perm && Into(m0, d, p)
      ensures e == d
    {
      NotDyn(m0, W, p);
    }
  }

  lemma NotDyn(m: seq<Descr>, W: World, p: int)
    requires Tiled(m, W) && Permanent(m, W) && p in W.perm
    ensures p !in W.dyn
  {
    if p in W.dyn {
      DynTitle(m, W, p);
    }
  }

  /** Of a string its value and its attribute are kept, what they point into
      included, and its characters; of any other block every cell. */
  lemma CellsKept(m0: seq<Descr>, W: World, m: seq<Descr>, m1: seq<Descr>, W1: World, T: Tables,
                  chains: seq<seq<int>>, chains1: seq<seq<int>>, t: int, o: int)
    requires Regenerated(m0, W, m, m1, W1, T, chains, chains1) && Sound(m0, W, T, chains)
    requires t in Living(m0, W, T, chains) && 0 < t < |m0| && 0 < o
    requires o <= if m0[t].sttl then LNKFLD + 1 + (m0[t].v - 1) / CPD else m0[t].v
    ensures var t1 := NewHome(m, W, t);
            && t1 in W1.dyn && 0 < t1 && t1 + o < |m1| && t + o < |m0| && m1[t1] == m0[t].(a := t1)
            && (!m0[t].sttl || o == 1 || o == ATTRIB ==> Moved(m0, m, W, T, chains, m0[t + o], m1[t1 + o]))
            && (m0[t].sttl && o == LNKFLD ==> m1[t1 + o] == m0[t + o].(a := m1[t1 + o].a))
            && (m0[t].sttl && o > LNKFLD ==> m1[t1 + o] == m0[t + o])
  {
    hide Sound, Regenerated, Live, KeptOn, Bases, KeptSince, NewHome, Moved, Into;
    assert o < BkSize(m0[t]);
    LiveKept(m0, W, m, m1, W1, T, chains, chains1, t, o);
    assert !m0[t].mark by { SoundParts(m0, W, T, chains); }
    if !m0[t].sttl || o == 1 || o == ATTRIB {
      forall u | u in W.dyn && Into(m0, m0[t + o], u)
        ensures u in Living(m0, W, T, chains)
      {
        FromCell(m0, W, T, chains, t, t + o, u);
      }
      KeptMoved(m0, W, m, m1, T, chains, m0[t + o], m1[NewHome(m, W, t) + o]);
    }
  }

  /** The blocks after a collection are those that were live. */
  lemma OnlyLiving(m0: seq<Descr>, W: World, m: seq<Descr>, m1: seq<Descr>, W1: World, T: Tables,
                   chains: seq<seq<int>>, chains1: seq<seq<int>>, j: int)
    requires Regenerated(m0, W, m, m1, W1, T, chains, chains1) && Sound(m0, W, T, chains) && 0 <= j < |W1.dyn|
    ensures exists t :: t in Living(m0, W, T, chains) && W1.dyn[j] == NewHome(m, W, t)
  {
    hide Sound, MarkedOk, Collected, Live, KeptOn, Bases, NewHome, Room, NewDyn;
    CollectedFrom(m0, W, m, m1, W1, T, chains, chains1);
    var i := Origin(m, W, |W.dyn|, j);
    HomeIs(m, W, i);
    assert W.dyn[i] in Living(m0, W, T, chains);
  }

  lemma {:induction false} NewChainHas(m: seq<Descr>, W: World, c: seq<int>, i: int, x: int)
    requires 0 <= i <= |c|
    ensures x in NewChain(m, W, c, i) <==> exists j :: i <= j < |c| && Alive(m, c[j]) && NewHome(m, W, c[j]) == x
    decreases |c| - i
  {
    hide Alive, NewHome;
    if i < |c| {
      NewChainHas(m, W, c, i + 1, x);
    }
  }

  /** The strings of a chain after a collection are those that were live. */
  lemma ChainsKept(m0: seq<Descr>, W: World, m: seq<Descr>, m1: seq<Descr>, W1: World, T: Tables,
                   chains: seq<seq<int>>, chains1: seq<seq<int>>, k: int, x: int)
    requires Regenerated(m0, W, m, m1, W1, T, chains, chains1) && Sound(m0, W, T, chains) && 0 <= k < |chains|
    ensures |chains1| == |chains|
    ensures x in chains1[k] <==>
              exists j :: 0 <= j < |chains[k]| && chains[k][j] in Living(m0, W, T, chains) && NewHome(m, W, chains[k][j]) == x
  {
    hide Sound, MarkedOk, Collected, Live, KeptOn, Bases, NewHome, NewChain;
    CollectedFrom(m0, W, m, m1, W1, T, chains, chains1);
    NewChainHas(m, W, chains[k], 0, x);
    forall j | 0 <= j < |chains[k]|
      ensures Alive(m, chains[k][j]) <==> chains[k][j] in Living(m0, W, T, chains)
    {
      InChain(m0, W, T, chains, k, j);
      SoundTiled(m0, W, T, chains);
      DynTitle(m0, W, chains[k][j]);
    }
  }
}
