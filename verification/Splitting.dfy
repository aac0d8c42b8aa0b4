/** SPLIT: a block is cut in two behind one of its descriptors. */
module Splitting {
  import opened Heap
  import opened Marking
  import opened Roots
  import opened Relinking
  import opened Relocation
  import opened Compaction
  import opened Soundness
  import opened Survival
  import opened Growth
  import opened Interning
  import opened Lookup

  /** n is m with dynamic block i cut behind its descriptor at address a: what
      was the next descriptor is the title of a new block. */
  ghost predicate Cut(m: seq<Descr>, n: seq<Descr>, W: World, i: int, a: int) {
    && 0 <= i < |W.dyn| && 0 < W.dyn[i] < a < |m| && !m[W.dyn[i]].sttl && a + 1 < W.dyn[i] + m[W.dyn[i]].v
    && a + 1 < |m|
    && n == m[W.dyn[i] := m[W.dyn[i]].(v := a - W.dyn[i])]
             [a + 1 := ZEROCL.(a := a + 1, ttl := true, v := m[W.dyn[i]].v - (a - W.dyn[i]) - 1)]
  }

  /** The new block comes right after block i. */
  ghost function Parted(W: World, i: int, a: int): (W': World)
    requires 0 <= i < |W.dyn|
  {
    World(W.dyn[..i + 1] + [a + 1] + W.dyn[i + 1..], W.perm, W.lo, W.hi)
  }

  /** Cells that SPLIT leaves alone. */
  lemma CutSame(m: seq<Descr>, n: seq<Descr>, W: World, i: int, a: int)
    requires Cut(m, n, W, i, a)
    ensures |n| == |m| && forall x :: 0 <= x < |m| && x != W.dyn[i] && x != a + 1 ==> n[x] == m[x]
    ensures n[W.dyn[i]] == m[W.dyn[i]].(v := a - W.dyn[i])
    ensures n[a + 1] == ZEROCL.(a := a + 1, ttl := true, v := m[W.dyn[i]].v - (a - W.dyn[i]) - 1)
  {
  }

  /** Other blocks are not touched. */
  lemma OtherTitle(m: seq<Descr>, n: seq<Descr>, W: World, i: int, a: int, u: int)
    requires Tiled(m, W) && Permanent(m, W) && Cut(m, n, W, i, a) && Owner(W, u) && u != W.dyn[i]
    ensures TitleAt(m, u) && TitleAt(n, u) && n[u] == m[u]
    ensures u + Traced(m[u]) < |m| && (u + Traced(m[u]) < W.dyn[i] || a + 1 < u)
  {
    CutSame(m, n, W, i, a);
    assert 0 <= i < |W.dyn| && W.dyn[i] < a && a + 1 < W.dyn[i] + m[W.dyn[i]].v && !m[W.dyn[i]].sttl;
    InRegion(m, W, i);
    if u in W.dyn {
      DynTitle(m, W, u);
      var k :| 0 <= k < |W.dyn| && W.dyn[k] == u;
      if k < i {
        Ascending(m, W, k, i);
      } else if k > i {
        Ascending(m, W, i, k);
      }
    } else {
      assert TitleAt(m, u) && u + Traced(m[u]) < W.lo;
    }
  }

  lemma {:induction false} CutTop(m: seq<Descr>, n: seq<Descr>, W: World, i: int, a: int, x: int)
    requires Tiled(m, W) && Cut(m, n, W, i, a) && 0 <= x < |m|
    ensures |n| == |m|
    ensures TopOf(n, x) == if TopOf(m, x) == W.dyn[i] && x > a then a + 1 else TopOf(m, x)
    decreases x
  {
    InRegion(m, W, i);
    if x == a + 1 {
      TopInBlock(m, W.dyn[i], x);
    } else if x == W.dyn[i] {
    } else if !m[x].ttl && x > 0 {
      CutTop(m, n, W, i, a, x - 1);
    }
  }

  lemma CutHalves(m: seq<Descr>, n: seq<Descr>, W: World, i: int, a: int)
    requires Tiled(m, W) && Cut(m, n, W, i, a)
    ensures TitleAt(n, W.dyn[i]) && TitleAt(n, a + 1) && BlockAt(m, W, i)
    ensures W.dyn[i] + BkSize(n[W.dyn[i]]) == a + 1 && a + 1 + BkSize(n[a + 1]) == W.dyn[i] + BkSize(m[W.dyn[i]])
    ensures n[W.dyn[i]].a == m[W.dyn[i]].a && n[a + 1].a == a + 1 && !n[a + 1].mark && n[W.dyn[i]].mark == m[W.dyn[i]].mark
    ensures Traced(n[W.dyn[i]]) == a - W.dyn[i] && a + 1 + Traced(n[a + 1]) == W.dyn[i] + Traced(m[W.dyn[i]])
  {
    InRegion(m, W, i);
  }

  lemma CutTiled(m: seq<Descr>, n: seq<Descr>, W: World, i: int, a: int)
    requires Tiled(m, W) && Permanent(m, W) && Cut(m, n, W, i, a)
    ensures Tiled(n, Parted(W, i, a))
  {
    hide TitleAt, Permanent;
    assert 0 <= i < |W.dyn|;
    var W' := Parted(W, i, a);
    CutHalves(m, n, W, i, a);
    CutSame(m, n, W, i, a);
    forall j | 0 <= j < |W'.dyn|
      ensures BlockAt(n, W', j)
    {
      if j < i {
        CutOther(m, n, W, i, a, j, j);
      } else if j > i + 1 {
        CutOther(m, n, W, i, a, j - 1, j);
      }
    }
  }

  lemma CutOther(m: seq<Descr>, n: seq<Descr>, W: World, i: int, a: int, k: int, j: int)
    requires Tiled(m, W) && Permanent(m, W) && Cut(m, n, W, i, a) && 0 <= k < |W.dyn| && k != i
    requires j == if k < i then k else k + 1
    ensures BlockAt(n, Parted(W, i, a), j)
  {
    assert BlockAt(m, W, k);
    if W.dyn[k] == W.dyn[i] {
      TitlesDiffer(m, W, k, i);
    }
    OtherTitle(m, n, W, i, a, W.dyn[k]);
  }

  lemma CutOwner(W: World, i: int, a: int, u: int)
    requires 0 <= i < |W.dyn| && Owner(W, u)
    ensures Owner(Parted(W, i, a), u)
  {
    var s := W.dyn[..i + 1] + [a + 1] + W.dyn[i + 1..];
    if u in W.dyn {
      var k :| 0 <= k < |W.dyn| && W.dyn[k] == u;
      assert s[if k <= i then k else k + 1] == u;
    }
  }

  /** Every pointer leads into a block as before. */
  lemma CutPtr(m: seq<Descr>, n: seq<Descr>, W: World, i: int, a: int, d: Descr)
    requires Tiled(m, W) && Permanent(m, W) && Cut(m, n, W, i, a) && PtrOk(m, W, d)
    ensures PtrOk(n, Parted(W, i, a), d)
  {
    hide Permanent, Tiled, TitleAt;
    if d.ptr && d.a != 0 {
      var u := TopOf(m, d.a);
      CutTop(m, n, W, i, a, d.a);
      CutHalves(m, n, W, i, a);
      CutOwner(W, i, a, u);
      if u != W.dyn[i] {
        OtherTitle(m, n, W, i, a, u);
      } else {
        assert (W.dyn[..i + 1] + [a + 1] + W.dyn[i + 1..])[i + 1] == a + 1;
      }
    }
  }

  /** Descriptors from j0 to j1 of block u, left alone, make up block v. */
  lemma CutBlock(m: seq<Descr>, n: seq<Descr>, W: World, i: int, a: int, u: int, v: int)
    requires Tiled(m, W) && Permanent(m, W) && Cut(m, n, W, i, a) && BlockOk(m, W, u) && 0 < v < |n|
    requires 0 <= Traced(n[v]) && u <= v && v + Traced(n[v]) <= u + Traced(m[u])
    requires (v >= W.dyn[i] || v + Traced(n[v]) < W.dyn[i]) && (v >= a + 1 || v + Traced(n[v]) < a + 1)
    ensures BlockOk(n, Parted(W, i, a), v)
  {
    hide PtrOk, Permanent, Tiled;
    CutSame(m, n, W, i, a);
    assert 0 <= i < |W.dyn|;
    forall j | v < j <= v + Traced(n[v])
      ensures PtrOk(n, Parted(W, i, a), n[j])
    {
      assert PtrOk(m, W, m[j]);
      CutPtr(m, n, W, i, a, m[j]);
    }
  }

  lemma CutBlocks(m: seq<Descr>, n: seq<Descr>, W: World, i: int, a: int, v: int)
    requires Tiled(m, W) && Permanent(m, W) && Cut(m, n, W, i, a)
    requires Owner(W, v) || v == a + 1
    requires v != a + 1 ==> BlockOk(m, W, v)
    requires BlockOk(m, W, W.dyn[i])
    ensures BlockOk(n, Parted(W, i, a), v)
  {
    hide PtrOk, Permanent, Tiled, BlockOk;
    CutHalves(m, n, W, i, a);
    if v == W.dyn[i] || v == a + 1 {
      CutBlock(m, n, W, i, a, W.dyn[i], v);
    } else {
      OtherTitle(m, n, W, i, a, v);
      CutBlock(m, n, W, i, a, v, v);
    }
  }

  /** Nothing below the dynamic region changes. */
  lemma CutLow(m: seq<Descr>, n: seq<Descr>, W: World, i: int, a: int, P: set<int>, x: int)
    requires Tiled(m, W) && Cut(m, n, W, i, a) && 0 <= x < W.lo
    ensures |n| == |m| && x < |m| && n[x] == m[x] && (SlotIn(n, P, x) <==> SlotIn(m, P, x))
  {
    InRegion(m, W, i);
    TopLow(m, n, W.lo, x);
  }

  lemma CutPlaced(m: seq<Descr>, n: seq<Descr>, W: World, i: int, a: int, T: Tables)
    requires Tiled(m, W) && Cut(m, n, W, i, a) && Placed(m, W, T, Bases(m, T))
    ensures Bases(n, T) == Bases(m, T) && Placed(n, Parted(W, i, a), T, Bases(m, T))
  {
    hide SlotIn, Listed, Tiled;
    assert 0 <= i < |W.dyn| && |n| == |m|;
    var P := Bases(m, T);
    forall x | 0 <= x < W.lo
      ensures n[x] == m[x] && (SlotIn(n, P, x) <==> SlotIn(m, P, x))
    {
      CutLow(m, n, W, i, a, P, x);
    }
    assert forall x :: InTable(T, x) ==> 0 < x < W.lo;
    ListedSame(m, n, T.prmptr, 0, T.prmdx);
  }

  lemma CutChain(m: seq<Descr>, n: seq<Descr>, W: World, i: int, a: int, bin: int, c: seq<int>)
    requires Tiled(m, W) && Permanent(m, W) && Cut(m, n, W, i, a) && IsChain(m, W, bin, c)
    ensures IsChain(n, Parted(W, i, a), bin, c)
  {
    hide Permanent, Tiled, TitleAt;
    assert 0 <= i < |W.dyn|;
    CutSame(m, n, W, i, a);
    forall j | 0 <= j < |c|
      ensures ChainString(n, Parted(W, i, a), c[j]) && n[c[j] + LNKFLD] == m[c[j] + LNKFLD]
    {
      assert ChainString(m, W, c[j]);
      CutString(m, n, W, i, a, c[j]);
    }
    CutHalves(m, n, W, i, a);
    InRegion(m, W, i);
    forall j | 0 <= j <= |c|
      ensures LinkAt(n, bin, c, j)
    {
      assert LinkAt(m, bin, c, j);
      assert j > 0 ==> ChainString(m, W, c[j - 1]);
      if j == 0 {
        CutLow(m, n, W, i, a, {}, bin + LNKFLD);
      }
    }
  }

  lemma CutString(m: seq<Descr>, n: seq<Descr>, W: World, i: int, a: int, t: int)
    requires Tiled(m, W) && Permanent(m, W) && Cut(m, n, W, i, a) && ChainString(m, W, t)
    ensures ChainString(n, Parted(W, i, a), t) && n[t + LNKFLD] == m[t + LNKFLD]
  {
    CutSame(m, n, W, i, a);
    InRegion(m, W, i);
    CutOwner(W, i, a, t);
    var k :| 0 <= k < |W.dyn| && W.dyn[k] == t;
    InRegion(m, W, k);
    if k < i {
      Ascending(m, W, k, i);
    } else if k > i {
      Ascending(m, W, i, k);
    }
    var s := W.dyn[..i + 1] + [a + 1] + W.dyn[i + 1..];
    assert s[if k <= i then k else k + 1] == t;
  }

  /** SPLIT leaves storage in order. */
  lemma CutSound(m: seq<Descr>, n: seq<Descr>, W: World, i: int, a: int, T: Tables, chains: seq<seq<int>>)
    requires Sound(m, W, T, chains) && Cut(m, n, W, i, a)
    ensures Sound(n, Parted(W, i, a), T, chains) && Bases(n, T) == Bases(m, T)
  {
    hide Apart, Bases, BlockOk, Homed, IsChain, Permanent, Placed, Scratch, Tiled;
    assert 0 <= i < |W.dyn|;
    var W', P := Parted(W, i, a), Bases(m, T);
    SoundBase(m, W, T, chains);
    CutTiled(m, n, W, i, a);
    CutRest(m, n, W, i, a, T, P);
    CutPlaced(m, n, W, i, a, T);
    forall v | v in W'.dyn || v in P
      ensures BlockOk(n, W', v)
    {
      assert Owner(W, v) || v == a + 1;
      if v == a + 1 && a + 1 in P {
        assert Owner(W, a + 1);
      }
      assert v != a + 1 ==> BlockOk(m, W, v);
      CutBlocks(m, n, W, i, a, v);
    }
    assert Chained(n, W', T.oblist, chains) by {
      forall k | 0 <= k < |chains|
        ensures IsChain(n, W', T.oblist + k, chains[k])
      {
        CutChain(m, n, W, i, a, T.oblist + k, chains[k]);
      }
    }
  }

  lemma CutRest(m: seq<Descr>, n: seq<Descr>, W: World, i: int, a: int, T: Tables, P: set<int>)
    requires Tiled(m, W) && Permanent(m, W) && Homed(m, W) && Cut(m, n, W, i, a)
    requires Scratch(m, W, P, T.gcblk + 1) && T.gcblk in W.perm && 0 < T.gcblk < |m| && m[T.gcblk].v == 1
    requires forall t :: t in W.dyn && 0 < t < |m| ==> !m[t].mark
    requires forall p :: p in P ==> p in W.perm && 0 < p < W.lo
    ensures var W' := Parted(W, i, a);
            && Permanent(n, W') && Homed(n, W') && Scratch(n, W', P, T.gcblk + 1)
            && 0 < T.gcblk < |n| && n[T.gcblk].v == 1 && W'.perm == W.perm
            && forall t :: t in W'.dyn && 0 < t < |n| ==> !n[t].mark
  {
    hide Tiled;
    assert 0 <= i < |W.dyn| && W.dyn[i] < a;
    CutSame(m, n, W, i, a);
    InRegion(m, W, i);
    forall t | t in W.perm
      ensures TitleAt(n, t) && n[t] == m[t] && t < W.lo
    {
      assert t < W.lo && TitleAt(m, t);
      OtherTitle(m, n, W, i, a, t);
    }
    CutHalves(m, n, W, i, a);
    forall p | p in P
      ensures !SlotOf(n, p, T.gcblk + 1)
    {
      assert n[p] == m[p];
    }
    assert T.gcblk + 1 != W.dyn[i] && n[T.gcblk + 1] == m[T.gcblk + 1];
    forall t | t in Parted(W, i, a).dyn
      ensures W.lo <= t
    {
      assert t in W.dyn || t == a + 1;
    }
  }

  lemma BlockRange(m: seq<Descr>, W: World, i: int)
    requires Tiled(m, W) && 0 <= i < |W.dyn|
    ensures 0 < W.dyn[i] < |m| && (!m[W.dyn[i]].sttl ==> W.dyn[i] + m[W.dyn[i]].v < |m|)
  {
    InRegion(m, W, i);
  }

  // ------------------------------------------------------ the table of strings

  /** A string's cells are not among those that change. */
  lemma CutText(m: seq<Descr>, n: seq<Descr>, W: World, i: int, a: int, t: int)
    requires Tiled(m, W) && Cut(m, n, W, i, a) && ChainString(m, W, t)
    ensures SameString(m, t, n, t)
  {
    hide BkSize, SameString, Tiled;
    var k := StringBlock(m, W, t);
    CutSame(m, n, W, i, a);
    CutHalves(m, n, W, i, a);
    var u := W.dyn[i];
    assert BlockAt(m, W, i);
    if k < i {
      Behind(m, W, k, i);
    } else if k > i {
      Behind(m, W, i, k);
    }
    forall o | LNKFLD <= o < BkSize(m[t])
      ensures SameCell(m, t, n, t, o)
    {
      assert t + o != u && t + o != a + 1;
    }
    BlockString(m, t, n, t);
  }

  lemma Behind(m: seq<Descr>, W: World, k: int, i: int)
    requires Tiled(m, W) && 0 <= k < i < |W.dyn|
    ensures BlockAt(m, W, k) && W.dyn[k] + BkSize(m[W.dyn[k]]) <= W.dyn[i]
  {
    Ascending(m, W, k, i);
  }

  lemma CutInterned(m: seq<Descr>, n: seq<Descr>, W: World, i: int, a: int, T: Tables, chains: seq<seq<int>>, h: Hash)
    requires Sound(m, W, T, chains) && Interned(m, h, chains) && Cut(m, n, W, i, a)
    ensures Interned(n, h, chains)
  {
    hide *;
    SoundBase(m, W, T, chains);
    forall k, j | 0 <= k < |chains| && 0 <= j < |chains[k]|
      ensures SameString(m, chains[k][j], n, chains[k][j])
    {
      InChain(m, W, T.oblist, chains, k, j);
      CutText(m, n, W, i, a, chains[k][j]);
    }
    InternedSame(m, n, h, chains);
  }

  lemma CutRegister(m: seq<Descr>, n: seq<Descr>, W: World, i: int, a: int, T: Tables, chains: seq<seq<int>>, x: int)
    requires Sound(m, W, T, chains) && Cut(m, n, W, i, a) && Register(m, W, T, x)
    ensures Register(n, Parted(W, i, a), T, x)
  {
    hide Sound, Bases, SlotIn, Cut, Tiled;
    SoundBase(m, W, T, chains);
    RegisterPlace(m, W, T, chains, x);
    CutSound(m, n, W, i, a, T, chains);
    CutLow(m, n, W, i, a, Bases(m, T), x);
  }

  lemma CutBins(m: seq<Descr>, n: seq<Descr>, W: World, i: int, a: int, T: Tables, chains: seq<seq<int>>)
    requires Sound(m, W, T, chains) && Cut(m, n, W, i, a) && BinBlock(m, W, T)
    ensures BinBlock(n, Parted(W, i, a), T)
  {
    hide Sound, Tiled, Bases;
    SoundBase(m, W, T, chains);
    CutLow(m, n, W, i, a, {}, T.oblist - 1);
  }

  /** SPLIT leaves the table of strings and its surroundings in order. */
  lemma TableCut(m: seq<Descr>, n: seq<Descr>, W: World, i: int, a: int, T: Tables, h: Hash, chains: seq<seq<int>>, R: Registers)
    requires TableOk(m, W, T, h, chains, R) && Cut(m, n, W, i, a)
    ensures 0 <= i < |W.dyn| && TableOk(n, Parted(W, i, a), T, h, chains, R)
  {
    hide Sound, Interned, BinBlock, Register, Parted;
    CutSound(m, n, W, i, a, T, chains);
    CutInterned(m, n, W, i, a, T, chains, h);
    CutBins(m, n, W, i, a, T, chains);
    CutRegister(m, n, W, i, a, T, chains, R.lst);
    CutRegister(m, n, W, i, a, T, chains, R.buk);
  }
}
