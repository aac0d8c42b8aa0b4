/** Storage stays in order when a block is added at its end, when a block is
    split in two, and when a register of a listed block is set. */
module Growth {
  import opened Heap
  import opened Marking
  import opened Roots
  import opened Relinking
  import opened Relocation
  import opened Soundness
  import opened Survival

  /** One more block at the end of the dynamic region. */
  ghost function Longer(W: World, size: int): (W': World) {
    World(W.dyn + [W.hi], W.perm, W.lo, W.hi + size)
  }

  /** n is m with a new block written behind the others. */
  ghost predicate Added(m: seq<Descr>, n: seq<Descr>, W: World) {
    && |n| == |m| && 0 < W.hi <= |m| && n[..W.hi] == m[..W.hi]
    && TitleAt(n, W.hi) && n[W.hi].a == W.hi && !n[W.hi].mark
    && forall x :: W.hi < x <= W.hi + Traced(n[W.hi]) && 0 <= x < |n| ==> PtrOk(m, W, n[x])
  }

  lemma AddedRange(m: seq<Descr>, n: seq<Descr>, W: World)
    requires Added(m, n, W)
    ensures |n| == |m| && 0 < W.hi < |n| && BkSize(n[W.hi]) > 0 && W.hi + BkSize(n[W.hi]) <= |n|
  {
  }

  lemma SameBelow(m: seq<Descr>, n: seq<Descr>, W: World, x: int)
    requires Added(m, n, W) && 0 <= x < W.hi
    ensures n[x] == m[x] && TopOf(n, x) == TopOf(m, x)
  {
    assert forall i :: 0 <= i < W.hi ==> n[i] == n[..W.hi][i] && m[i] == m[..W.hi][i];
    TopLow(m, n, W.hi, x);
  }

  lemma AddedTitle(m: seq<Descr>, n: seq<Descr>, W: World, t: int)
    requires Added(m, n, W) && TitleAt(m, t) && t + BkSize(m[t]) <= W.hi
    ensures TitleAt(n, t) && n[t] == m[t]
  {
    SameBelow(m, n, W, t);
    forall i | t < i <= t + Traced(m[t])
      ensures !n[i].ttl
    {
      SameBelow(m, n, W, i);
    }
  }

  lemma AddedTiled(m: seq<Descr>, n: seq<Descr>, W: World)
    requires Tiled(m, W) && Added(m, n, W)
    ensures Tiled(n, Longer(W, BkSize(n[W.hi])))
    ensures forall t :: t in W.dyn ==> TitleAt(m, t) && TitleAt(n, t) && n[t] == m[t] && W.lo <= t < W.hi
  {
    var W' := Longer(W, BkSize(n[W.hi]));
    forall i | 0 <= i < |W.dyn|
      ensures BlockAt(n, W', i) && TitleAt(m, W.dyn[i]) && n[W.dyn[i]] == m[W.dyn[i]] && W.lo <= W.dyn[i] < W.hi
    {
      InRegion(m, W, i);
      AddedTitle(m, n, W, W.dyn[i]);
      assert BkSize(m[W.dyn[i]]) > 0;
    }
    var last := |W.dyn|;
    assert BlockAt(n, W', last) && BkSize(n[W.hi]) > 0 && W.hi + BkSize(n[W.hi]) <= |n|;
  }

  lemma AddedPtr(m: seq<Descr>, n: seq<Descr>, W: World, d: Descr)
    requires Tiled(m, W) && Permanent(m, W) && Added(m, n, W) && PtrOk(m, W, d)
    ensures PtrOk(n, Longer(W, BkSize(n[W.hi])), d)
  {
    hide TitleAt, Added;
    if d.ptr && d.a != 0 {
      var u := TopOf(m, d.a);
      Below(m, W, u, d.a);
      AddedRange(m, n, W);
      SameBelow(m, n, W, d.a);
      SameBelow(m, n, W, u);
      assert u in W.dyn ==> u in Longer(W, BkSize(n[W.hi])).dyn;
    }
  }

  /** What lies in a block lies below the end of the region. */
  lemma Below(m: seq<Descr>, W: World, u: int, a: int)
    requires Tiled(m, W) && Permanent(m, W) && Owner(W, u) && 0 < u <= a && u < |m|
    requires a == u || a <= u + Traced(m[u])
    ensures a < W.hi
  {
    if u in W.dyn {
      DynTitle(m, W, u);
    }
  }

  lemma AddedBlock(m: seq<Descr>, n: seq<Descr>, W: World, t: int)
    requires Tiled(m, W) && Permanent(m, W) && Added(m, n, W) && Owner(W, t) && BlockOk(m, W, t)
    ensures BlockOk(n, Longer(W, BkSize(n[W.hi])), t)
  {
    hide PtrOk, Added, Permanent, Tiled;
    AddedRange(m, n, W);
    var W' := Longer(W, BkSize(n[W.hi]));
    SlotBelow(m, W, t, t);
    SameBelow(m, n, W, t);
    forall j | t < j <= t + Traced(n[t])
      ensures PtrOk(n, W', n[j])
    {
      SlotBelow(m, W, t, j);
      SameBelow(m, n, W, j);
      AddedPtr(m, n, W, m[j]);
    }
  }

  lemma SlotBelow(m: seq<Descr>, W: World, t: int, j: int)
    requires Tiled(m, W) && Permanent(m, W) && Owner(W, t) && 0 < t < |m|
    requires t == j || t < j <= t + Traced(m[t])
    ensures j < W.hi
  {
    Below(m, W, t, j);
  }

  lemma AddedNew(m: seq<Descr>, n: seq<Descr>, W: World)
    requires Tiled(m, W) && Permanent(m, W) && Added(m, n, W)
    ensures BlockOk(n, Longer(W, BkSize(n[W.hi])), W.hi)
  {
    hide PtrOk, Permanent, Tiled;
    var t := W.hi;
    forall j | t < j <= t + Traced(n[t])
      ensures PtrOk(n, Longer(W, BkSize(n[W.hi])), n[j])
    {
      AddedPtr(m, n, W, n[j]);
    }
  }

  lemma AddedPermanent(m: seq<Descr>, n: seq<Descr>, W: World)
    requires Tiled(m, W) && Permanent(m, W) && Added(m, n, W)
    ensures Permanent(n, Longer(W, BkSize(n[W.hi])))
    ensures forall t :: t in W.perm ==> 0 < t < |n| == |m| && n[t] == m[t]
  {
    forall t | t in W.perm
      ensures TitleAt(n, t) && n[t] == m[t]
    {
      SameBelow(m, n, W, t);
      forall i | t < i <= t + Traced(m[t])
        ensures n[i] == m[i]
      {
        SameBelow(m, n, W, i);
      }
    }
  }

  lemma SlotSame(m: seq<Descr>, n: seq<Descr>, P: set<int>, x: int)
    requires |n| == |m| && 0 <= x < |m| && TopOf(n, x) == TopOf(m, x)
    requires TopOf(m, x) in P && 0 <= TopOf(m, x) ==> n[TopOf(m, x)] == m[TopOf(m, x)]
    ensures SlotIn(n, P, x) <==> SlotIn(m, P, x)
  {
  }

  /** Cells below the dynamic region stay, and so do the tables there. */
  lemma AddedPlaced(m: seq<Descr>, n: seq<Descr>, W: World, T: Tables)
    requires Tiled(m, W) && Placed(m, W, T, Bases(m, T)) && Added(m, n, W)
    requires forall p :: p in Bases(m, T) ==> 0 < p < W.lo
    ensures Bases(n, T) == Bases(m, T) && Placed(n, Longer(W, BkSize(n[W.hi])), T, Bases(m, T))
  {
    hide Added, Listed, TitleAt, SlotIn;
    var P := Bases(m, T);
    AddedRange(m, n, W);
    forall x | 0 <= x < W.lo
      ensures n[x] == m[x] && (SlotIn(n, P, x) <==> SlotIn(m, P, x))
    {
      SameBelow(m, n, W, x);
      if TopOf(m, x) in P {
        SameBelow(m, n, W, TopOf(m, x));
      }
      SlotSame(m, n, P, x);
    }
    forall x | InTable(T, x) || InBins(T, x)
      ensures 0 < x < W.lo
    {
    }
    ListedSame(m, n, T.prmptr, 0, T.prmdx);
  }

  lemma AddedChain(m: seq<Descr>, n: seq<Descr>, W: World, bin: int, c: seq<int>)
    requires Tiled(m, W) && Added(m, n, W) && IsChain(m, W, bin, c)
    ensures IsChain(n, Longer(W, BkSize(n[W.hi])), bin, c)
  {
    hide Added, TitleAt;
    AddedRange(m, n, W);
    var W' := Longer(W, BkSize(n[W.hi]));
    forall i | 0 <= i < |c|
      ensures ChainString(n, W', c[i])
    {
      assert ChainString(m, W, c[i]);
      SameBelow(m, n, W, c[i]);
    }
    forall i | 0 <= i <= |c|
      ensures LinkAt(n, bin, c, i)
    {
      assert LinkAt(m, bin, c, i);
      assert i > 0 ==> ChainString(m, W, c[i - 1]);
      SameBelow(m, n, W, LinkCell(bin, c, i));
    }
  }

  lemma AddedChained(m: seq<Descr>, n: seq<Descr>, W: World, oblist: int, chains: seq<seq<int>>)
    requires Tiled(m, W) && Added(m, n, W) && Chained(m, W, oblist, chains)
    ensures Chained(n, Longer(W, BkSize(n[W.hi])), oblist, chains)
  {
    hide Added, Tiled, IsChain, Apart;
    AddedRange(m, n, W);
    forall k | 0 <= k < |chains|
      ensures IsChain(n, Longer(W, BkSize(n[W.hi])), oblist + k, chains[k])
    {
      AddedChain(m, n, W, oblist + k, chains[k]);
    }
  }

  lemma AddedScratch(m: seq<Descr>, n: seq<Descr>, W: World, P: set<int>, x: int)
    requires Scratch(m, W, P, x) && Tiled(m, W) && Added(m, n, W) && forall p :: p in P ==> 0 < p < W.lo
    ensures Scratch(n, Longer(W, BkSize(n[W.hi])), P, x)
  {
    hide Added, TitleAt;
    AddedRange(m, n, W);
    SameBelow(m, n, W, x);
    forall p | p in P
      ensures !SlotOf(n, p, x)
    {
      SameBelow(m, n, W, p);
    }
  }

  lemma SoundBase(m: seq<Descr>, W: World, T: Tables, chains: seq<seq<int>>)
    requires Sound(m, W, T, chains)
    ensures var P := Bases(m, T);
            && Tiled(m, W) && Permanent(m, W) && Homed(m, W) && Placed(m, W, T, P) && Chained(m, W, T.oblist, chains)
            && (forall p :: p in P ==> p in W.perm && 0 < p < W.lo && BlockOk(m, W, p) && p != T.gcblk + 1)
            && (forall t :: t in W.dyn ==> BlockOk(m, W, t))
            && T.gcblk in W.perm && 0 < T.gcblk < |m| && m[T.gcblk].v == 1 && Scratch(m, W, P, T.gcblk + 1)
            && (forall t :: t in W.dyn && 0 < t < |m| ==> !m[t].mark) && |chains| == T.obsiz
  {
    hide Placed, SlotIn, BlockOk, Tiled, Chained;
  }

  /** A new block leaves storage in order. */
  lemma AddedSound(m: seq<Descr>, n: seq<Descr>, W: World, T: Tables, chains: seq<seq<int>>)
    requires Sound(m, W, T, chains) && Added(m, n, W)
    ensures Sound(n, Longer(W, BkSize(n[W.hi])), T, chains) && Bases(n, T) == Bases(m, T)
  {
    hide Added, Bases, BkSize, BlockOk, Chained, Homed, Permanent, Placed, Scratch, Tiled, TitleAt;
    AddedRange(m, n, W);
    var W', P := Longer(W, BkSize(n[W.hi])), Bases(m, T);
    SoundBase(m, W, T, chains);
    AddedTiled(m, n, W);
    AddedPermanent(m, n, W);
    AddedPlaced(m, n, W, T);
    AddedChained(m, n, W, T.oblist, chains);
    AddedScratch(m, n, W, P, T.gcblk + 1);
    AddedNew(m, n, W);
    AddedHome(m, n, W);
    assert W'.dyn == W.dyn + [W.hi] && W'.perm == W.perm;
    forall t | t in W'.dyn || t in P
      ensures BlockOk(n, W', t)
    {
      if t != W.hi {
        assert Owner(W, t);
        AddedBlock(m, n, W, t);
      }
    }
  }

  lemma AddedHome(m: seq<Descr>, n: seq<Descr>, W: World)
    requires Tiled(m, W) && Added(m, n, W) && Homed(m, W) && forall t :: t in W.dyn && 0 < t < |m| ==> !m[t].mark
    ensures var W' := Longer(W, BkSize(n[W.hi]));
            Homed(n, W') && forall t :: t in W'.dyn && 0 < t < |n| ==> !n[t].mark
  {
    hide TitleAt, PtrOk;
    AddedTiled(m, n, W);
  }

  // --------------------------------------------------------------- a register

  /** x is a descriptor of a listed block: a register of the interpreter. */
  ghost predicate Register(m: seq<Descr>, W: World, T: Tables, x: int) {
    0 < x < |m| && SlotIn(m, Bases(m, T), x)
  }

  lemma RegisterPlace(m: seq<Descr>, W: World, T: Tables, chains: seq<seq<int>>, x: int)
    requires Sound(m, W, T, chains) && Register(m, W, T, x)
    ensures x < W.lo && !m[x].ttl && x != T.gcblk + 1 && !InBins(T, x) && !InTable(T, x)
  {
    hide Sound, PtrOk;
    SoundBase(m, W, T, chains);
  }

  lemma SetBlock(m: seq<Descr>, W: World, x: int, d: Descr, t: int)
    requires 0 <= x < |m| && !m[x].ttl && !d.ttl && BlockOk(m, W, t) && m[t].ttl && PtrOk(m, W, d)
    ensures BlockOk(m[x := d], W, t)
  {
    var n := m[x := d];
    forall j | t < j <= t + Traced(m[t])
      ensures PtrOk(n, W, n[j])
    {
      assert PtrOk(m, W, m[j]);
      PtrScratch(m, W, x, d, n[j]);
    }
  }

  lemma SetTiled(m: seq<Descr>, W: World, x: int, d: Descr)
    requires Tiled(m, W) && Permanent(m, W) && 0 <= x < |m| && !m[x].ttl && !d.ttl
    ensures Tiled(m[x := d], W) && Permanent(m[x := d], W)
    ensures forall t :: Owner(W, t) ==> 0 < t < |m| && t != x && m[t].ttl
  {
    var n := m[x := d];
    forall i | 0 <= i < |W.dyn|
      ensures BlockAt(n, W, i)
    {
      assert BlockAt(m, W, i);
      TitleScratch(m, x, d, W.dyn[i]);
    }
    forall t | Owner(W, t)
      ensures 0 < t < |m| && t != x && m[t].ttl && TitleAt(n, t)
    {
      if t in W.dyn {
        DynTitle(m, W, t);
      }
      TitleScratch(m, x, d, t);
      assert m[t].ttl;
    }
  }

  lemma SetPlaced(m: seq<Descr>, W: World, T: Tables, x: int, d: Descr)
    requires Placed(m, W, T, Bases(m, T)) && 0 <= x < |m| && !m[x].ttl && !d.ttl && !InTable(T, x) && !InBins(T, x)
    ensures Bases(m[x := d], T) == Bases(m, T) && Placed(m[x := d], W, T, Bases(m, T))
  {
    hide SlotIn, Listed;
    var n, P := m[x := d], Bases(m, T);
    forall y | 0 <= y < |m|
      ensures SlotIn(n, P, y) <==> SlotIn(m, P, y)
    {
      SetSlot(m, P, x, d, y);
    }
    assert forall y :: T.prmptr < y <= T.prmptr + T.prmdx ==> InTable(T, y);
    ListedSame(m, n, T.prmptr, 0, T.prmdx);
  }

  lemma SetSlot(m: seq<Descr>, P: set<int>, x: int, d: Descr, y: int)
    requires 0 <= x < |m| && !m[x].ttl && !d.ttl && 0 <= y < |m|
    ensures SlotIn(m[x := d], P, y) <==> SlotIn(m, P, y)
  {
    TopScratch(m, x, d, y);
  }

  lemma SetChained(m: seq<Descr>, W: World, oblist: int, chains: seq<seq<int>>, x: int, d: Descr)
    requires Chained(m, W, oblist, chains) && Tiled(m, W) && 0 <= x < W.lo
    requires !(oblist <= x - LNKFLD < oblist + |chains|)
    ensures Chained(m[x := d], W, oblist, chains)
  {
    hide Apart;
    assert W.lo <= |m|;
    forall k | 0 <= k < |chains|
      ensures IsChain(m[x := d], W, oblist + k, chains[k])
    {
      SetChain(m, W, oblist + k, chains[k], x, d);
    }
  }

  lemma SetChain(m: seq<Descr>, W: World, bin: int, c: seq<int>, x: int, d: Descr)
    requires IsChain(m, W, bin, c) && 0 <= x < W.lo <= |m| && x != bin + LNKFLD
    ensures IsChain(m[x := d], W, bin, c)
  {
    var n := m[x := d];
    forall i | 0 <= i < |c|
      ensures ChainString(n, W, c[i])
    {
      assert ChainString(m, W, c[i]);
    }
    forall i | 0 <= i <= |c|
      ensures LinkAt(n, bin, c, i)
    {
      assert LinkAt(m, bin, c, i);
      assert i > 0 ==> ChainString(m, W, c[i - 1]);
    }
  }

  lemma SetScratch(m: seq<Descr>, W: World, P: set<int>, y: int, x: int, d: Descr)
    requires Scratch(m, W, P, y) && 0 <= x < |m| && x != y && !m[x].ttl && !d.ttl
    requires forall p :: p in P ==> p != x
    ensures Scratch(m[x := d], W, P, y)
  {
  }

  /** Setting a register to something in order leaves storage in order. */
  lemma SetSound(m: seq<Descr>, W: World, T: Tables, chains: seq<seq<int>>, x: int, d: Descr)
    requires Sound(m, W, T, chains) && Register(m, W, T, x) && !d.ttl && PtrOk(m, W, d)
    ensures Sound(m[x := d], W, T, chains) && Bases(m[x := d], T) == Bases(m, T)
    ensures forall y :: Register(m, W, T, y) ==> Register(m[x := d], W, T, y)
  {
    hide Bases, BlockOk, Chained, InTable, Permanent, Placed, PtrOk, Scratch, SlotIn, Tiled;
    var n, P := m[x := d], Bases(m, T);
    SoundBase(m, W, T, chains);
    RegisterPlace(m, W, T, chains, x);
    assert 0 < x < |m|;
    SetTiled(m, W, x, d);
    SetPlaced(m, W, T, x, d);
    SetChained(m, W, T.oblist, chains, x, d);
    assert forall p :: p in P ==> Owner(W, p) && p != x;
    SetScratch(m, W, P, T.gcblk + 1, x, d);
    forall t | t in W.dyn || t in P
      ensures BlockOk(n, W, t)
    {
      assert Owner(W, t);
      SetBlock(m, W, x, d, t);
    }
    assert Homed(n, W);
    forall y | Register(m, W, T, y)
      ensures Register(n, W, T, y)
    {
      SetSlot(m, P, x, d, y);
    }
  }

  // ----------------------------------------------- a descriptor of a dynamic block

  /** x is a descriptor that the collector follows from dynamic block i. */
  ghost predicate FollowedIn(m: seq<Descr>, W: World, i: int, x: int) {
    0 <= i < |W.dyn| && 0 < W.dyn[i] < x < |m| && x <= W.dyn[i] + Traced(m[W.dyn[i]])
  }

  lemma FollowedPlace(m: seq<Descr>, W: World, i: int, x: int)
    requires Tiled(m, W) && FollowedIn(m, W, i, x)
    ensures 0 < W.lo <= x < |m| && !m[x].ttl
  {
    InRegion(m, W, i);
  }

  /** It is not among the cells of a string behind the attributes. */
  lemma FollowedApart(m: seq<Descr>, W: World, i: int, x: int, t: int, o: int)
    requires Tiled(m, W) && FollowedIn(m, W, i, x) && ChainString(m, W, t) && LNKFLD <= o < BkSize(m[t])
    ensures t + o != x
  {
    var k :| 0 <= k < |W.dyn| && W.dyn[k] == t;
    InRegion(m, W, i);
    InRegion(m, W, k);
    if k < i {
      Ascending(m, W, k, i);
    } else if i < k {
      Ascending(m, W, i, k);
    }
  }

  lemma StoreChain(m: seq<Descr>, W: World, bin: int, c: seq<int>, i: int, x: int, d: Descr)
    requires IsChain(m, W, bin, c) && Tiled(m, W) && FollowedIn(m, W, i, x)
    ensures IsChain(m[x := d], W, bin, c)
  {
    hide Tiled, BkSize;
    FollowedPlace(m, W, i, x);
    var n := m[x := d];
    forall j | 0 <= j < |c|
      ensures ChainString(n, W, c[j]) && c[j] + LNKFLD != x
    {
      assert ChainString(m, W, c[j]);
      StringRoom(m, W, c[j]);
      FollowedApart(m, W, i, x, c[j], LNKFLD);
    }
    forall j | 0 <= j <= |c|
      ensures LinkAt(n, bin, c, j)
    {
      assert LinkAt(m, bin, c, j);
    }
  }

  lemma StringRoom(m: seq<Descr>, W: World, t: int)
    requires Tiled(m, W) && ChainString(m, W, t)
    ensures BkSize(m[t]) >= 5 && m[t].ttl
  {
    DynTitle(m, W, t);
  }

  /** A value stored in a block leaves storage in order. */
  lemma StoreSound(m: seq<Descr>, W: World, T: Tables, chains: seq<seq<int>>, i: int, x: int, d: Descr)
    requires Sound(m, W, T, chains) && FollowedIn(m, W, i, x) && !d.ttl && PtrOk(m, W, d)
    ensures Sound(m[x := d], W, T, chains) && Bases(m[x := d], T) == Bases(m, T)
    ensures forall y :: Register(m, W, T, y) ==> Register(m[x := d], W, T, y)
  {
    hide Bases, BlockOk, IsChain, InTable, Permanent, Placed, PtrOk, Scratch, SlotIn, Tiled, FollowedIn;
    SoundBase(m, W, T, chains);
    FollowedPlace(m, W, i, x);
    var n, P := m[x := d], Bases(m, T);
    StorePlace(m, W, T, P, i, x);
    SetTiled(m, W, x, d);
    SetPlaced(m, W, T, x, d);
    forall k | 0 <= k < |chains|
      ensures IsChain(n, W, T.oblist + k, chains[k])
    {
      StoreChain(m, W, T.oblist + k, chains[k], i, x, d);
    }
    assert forall p :: p in P ==> Owner(W, p) && p != x;
    SetScratch(m, W, P, T.gcblk + 1, x, d);
    forall t | t in W.dyn || t in P
      ensures BlockOk(n, W, t)
    {
      assert Owner(W, t);
      SetBlock(m, W, x, d, t);
    }
    assert Homed(n, W);
    forall y | Register(m, W, T, y)
      ensures Register(n, W, T, y)
    {
      SetSlot(m, P, x, d, y);
    }
  }

  lemma StorePlace(m: seq<Descr>, W: World, T: Tables, P: set<int>, i: int, x: int)
    requires Tiled(m, W) && FollowedIn(m, W, i, x) && Placed(m, W, T, P) && Scratch(m, W, P, T.gcblk + 1)
    ensures 0 <= x < |m| && !InTable(T, x) && !InBins(T, x) && x != T.gcblk + 1
  {
    FollowedPlace(m, W, i, x);
  }

  // ---------------------------------------------------------- an empty block

  /** n is m with an empty block of the given size behind the others. */
  ghost predicate Emptied(m: seq<Descr>, n: seq<Descr>, at: int, size: int) {
    && |n| == |m| && 0 < at && 1 <= size && at + size < |n|
    && n[..at] == m[..at] && n[at] == ZEROCL.(a := at, ttl := true, v := size)
    && forall x :: at < x <= at + size ==> n[x] == ZEROCL
  }

  lemma EmptiedCells(m: seq<Descr>, n: seq<Descr>, at: int, size: int)
    requires Emptied(m, n, at, size)
    ensures |n| == |m| && 0 < at && at + size < |n| && n[at].a == at && n[at].v == size && n[at].ttl
    ensures forall x :: 0 <= x <= at + size && x != at ==> n[x] == if x < at then m[x] else ZEROCL
  {
    assert forall x :: 0 <= x < at ==> n[x] == n[..at][x] && m[x] == m[..at][x];
  }

  lemma SoundRegion(m: seq<Descr>, W: World, T: Tables, chains: seq<seq<int>>)
    requires Sound(m, W, T, chains)
    ensures Tiled(m, W) && 0 < W.lo <= W.hi <= |m|
  {
    hide Placed, Chained, Permanent;
  }

  lemma EmptyAdded(m: seq<Descr>, n: seq<Descr>, W: World, size: int)
    requires Tiled(m, W) && Emptied(m, n, W.hi, size)
    ensures Added(m, n, W) && BkSize(n[W.hi]) == size + 1
  {
  }
}
