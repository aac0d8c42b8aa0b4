/** A collection leaves storage in order: the new memory is tiled by the live
    blocks, every pointer leads into a block, and the chains hold the strings
    that stayed. */
module Survival {
  import opened Heap
  import opened Marking
  import opened Roots
  import opened Forwarding
  import opened Relinking
  import opened Relocation
  import opened Compaction
  import opened Soundness

  /** The new addresses of the live ones among the first k blocks. */
  ghost function NewDyn(m: seq<Descr>, W: World, k: int): (s: seq<int>)
    requires 0 <= k <= |W.dyn|
    decreases k
  {
    if k == 0 then [] else NewDyn(m, W, k - 1) + if Stays(m, W, k - 1) then [Room(m, W, k - 1)] else []
  }

  /** The blocks after the collection. */
  ghost function NewWorld(m: seq<Descr>, W: World): (W': World) {
    World(NewDyn(m, W, |W.dyn|), W.perm, W.lo, Room(m, W, |W.dyn|))
  }

  /** The strings of a chain that stay, from place i on, at their new addresses. */
  ghost function NewChain(m: seq<Descr>, W: World, c: seq<int>, i: int): (s: seq<int>)
    requires 0 <= i <= |c|
    decreases |c| - i
  {
    if i == |c| then []
    else (if Alive(m, c[i]) then [NewHome(m, W, c[i])] else []) + NewChain(m, W, c, i + 1)
  }

  ghost function NewChains(m: seq<Descr>, W: World, chains: seq<seq<int>>): (s: seq<seq<int>>)
    ensures |s| == |chains|
  {
    seq(|chains|, k requires 0 <= k < |chains| => NewChain(m, W, chains[k], 0))
  }

  // --------------------------------------------------------------- the blocks

  /** Every new block was a live one, and the next follows at once. */
  lemma {:induction false} Origin(m: seq<Descr>, W: World, k: int, j: int) returns (i: int)
    requires Tiled(m, W) && 0 <= k <= |W.dyn| && 0 <= j < |NewDyn(m, W, k)|
    ensures 0 <= i < k && Stays(m, W, i) && NewDyn(m, W, k)[j] == Room(m, W, i)
    ensures Room(m, W, i) + BkSize(m[W.dyn[i]])
         == if j + 1 < |NewDyn(m, W, k)| then NewDyn(m, W, k)[j + 1] else Room(m, W, k)
    decreases k
  {
    var before := NewDyn(m, W, k - 1);
    if j < |before| {
      i := Origin(m, W, k - 1, j);
    } else {
      i := k - 1;
    }
  }

  /** A live block is among the new ones. */
  lemma {:induction false} Listing(m: seq<Descr>, W: World, k: int, i: int)
    requires 0 <= i < k <= |W.dyn| && Stays(m, W, i)
    ensures Room(m, W, i) in NewDyn(m, W, k)
    decreases k
  {
    if i < k - 1 {
      Listing(m, W, k - 1, i);
    }
  }

  lemma {:induction false} FirstNew(m: seq<Descr>, W: World, k: int)
    requires 0 <= k <= |W.dyn|
    ensures if NewDyn(m, W, k) == [] then Room(m, W, k) == W.lo else NewDyn(m, W, k)[0] == W.lo
    decreases k
  {
    if k > 0 {
      FirstNew(m, W, k - 1);
    }
  }

  /** A live block at its new place is a block of the same kind and size. */
  lemma TitleMoved(m: seq<Descr>, m': seq<Descr>, W: World, i: int)
    requires Tiled(m, W) && 0 <= i < |W.dyn| && Stays(m, W, i) && BlockMoved(m, m', W, i, Room(m, W, i), false)
    ensures BlockAt(m, W, i) && TitleAt(m', Room(m, W, i))
    ensures m'[Room(m, W, i)] == m[W.dyn[i]].(a := Room(m, W, i), mark := false)
  {
    hide Room, NewAddr;
    var t, to := W.dyn[i], Room(m, W, i);
    assert BlockAt(m, W, i);
    forall x | to < x <= to + Traced(m'[to])
      ensures !m'[x].ttl
    {
      assert CellAt(m, m', W, t, to, x - to);
    }
  }

  /** Permanent blocks stay where they are. */
  lemma TitleStays(m: seq<Descr>, m': seq<Descr>, W: World, T: Tables, P: set<int>, chains: seq<seq<int>>, t: int)
    requires MarkedOk(m, W, T, P, chains) && Collected(m, m', W, P, T.oblist, chains) && t in W.perm
    ensures TitleAt(m, t) && TitleAt(m', t) && m'[t] == m[t] && t + Traced(m[t]) < W.lo && m[t].a == t
  {
    hide Chained, Followed, BlockMoved, ChainMoved, Scratch, NewAddr, Placed;
    forall x | 0 <= x < W.lo
      ensures x < |m'| && m'[x].ttl == m[x].ttl
    {
      assert LowCell(m, m', W, P, T.oblist, |chains|, x);
    }
    NotInBins(m, W, T, P, chains, t);
    assert LowCell(m, m', W, P, T.oblist, |chains|, t);
  }

  lemma NotInBins(m: seq<Descr>, W: World, T: Tables, P: set<int>, chains: seq<seq<int>>, t: int)
    requires MarkedOk(m, W, T, P, chains) && 0 <= t < |m| && m[t].ttl
    ensures !InBins(T, t) && |chains| == T.obsiz && !SlotIn(m, P, t)
  {
  }

  /** Where a pointer leads after the collection. */
  lemma LeadMoved(m: seq<Descr>, m': seq<Descr>, W: World, T: Tables, P: set<int>, chains: seq<seq<int>>, u: int)
    requires MarkedOk(m, W, T, P, chains) && Collected(m, m', W, P, T.oblist, chains) && Leads(m, W, u)
    ensures var u' := NewHome(m, W, u);
            && TitleAt(m', u') && Traced(m'[u']) == Traced(m[u]) && Owner(NewWorld(m, W), u')
  {
    hide Chained, Followed, BlockMoved, ChainMoved, Scratch, LowCell, Placed, Room, NewHome;
    if u in W.dyn {
      var i :| 0 <= i < |W.dyn| && W.dyn[i] == u;
      HomeIs(m, W, i);
      TitleMoved(m, m', W, i);
      Listing(m, W, |W.dyn|, i);
    } else {
      HomeStays(m, W, u);
      TitleStays(m, m', W, T, P, chains, u);
    }
  }

  /** A pointer that was followed is in order after the collection. */
  lemma PtrMoved(m: seq<Descr>, m': seq<Descr>, W: World, T: Tables, P: set<int>, chains: seq<seq<int>>, d: Descr)
    requires MarkedOk(m, W, T, P, chains) && Collected(m, m', W, P, T.oblist, chains) && TargetOk(m, W, d)
    ensures PtrOk(m', NewWorld(m, W), Renamed(m, W, d))
  {
    hide MarkedOk, Collected, NewHome, NewWorld, Owner, Leads;
    if d.ptr && d.a != 0 {
      var u := TopOf(m, d.a);
      LeadMoved(m, m', W, T, P, chains, u);
      TopInBlock(m', NewHome(m, W, u), NewAddr(m, W, d.a));
      assert 0 < NewHome(m, W, u);
    }
  }

  lemma TiledAgain(m: seq<Descr>, m': seq<Descr>, W: World, T: Tables, P: set<int>, chains: seq<seq<int>>)
    requires MarkedOk(m, W, T, P, chains) && Collected(m, m', W, P, T.oblist, chains)
    ensures Tiled(m', NewWorld(m, W)) && Homed(m', NewWorld(m, W))
    ensures forall t :: t in NewWorld(m, W).dyn && 0 < t < |m'| ==> !m'[t].mark
    ensures forall t :: t in NewWorld(m, W).dyn ==> W.lo <= t
  {
    hide Room, BlockMoved, LowCell, ChainMoved, TitleAt, Permanent, Placed, Followed, Scratch, Chained;
    var W', n := NewWorld(m, W), |W.dyn|;
    FirstNew(m, W, n);
    WithinRegion(m, W);
    forall j | 0 <= j < |W'.dyn|
      ensures BlockAt(m', W', j) && 0 < W'.dyn[j] < |m'| && m'[W'.dyn[j]].a == W'.dyn[j] && !m'[W'.dyn[j]].mark && W.lo <= W'.dyn[j]
    {
      var i := Origin(m, W, n, j);
      TitleMoved(m, m', W, i);
      TitleRange(m', Room(m, W, i));
      RoomBelow(m, W, i);
      assert BkSize(m'[W'.dyn[j]]) == BkSize(m[W.dyn[i]]);
    }
  }

  lemma TitleRange(m: seq<Descr>, t: int)
    requires TitleAt(m, t)
    ensures 0 < t < |m|
  {
  }

  lemma WithinRegion(m: seq<Descr>, W: World)
    requires Tiled(m, W)
    ensures W.lo <= Room(m, W, |W.dyn|) <= W.hi
  {
    if W.dyn != [] {
      RoomBelow(m, W, |W.dyn| - 1);
    }
  }

  lemma PermanentAgain(m: seq<Descr>, m': seq<Descr>, W: World, T: Tables, P: set<int>, chains: seq<seq<int>>)
    requires MarkedOk(m, W, T, P, chains) && Collected(m, m', W, P, T.oblist, chains)
    ensures Permanent(m', NewWorld(m, W))
    ensures T.gcblk in W.perm && 0 < T.gcblk < |m'| && m'[T.gcblk].v == 1
  {
    hide Collected, Placed, Followed, Scratch, Chained, NewDyn, Room;
    forall t | t in W.perm
      ensures TitleAt(m', t) && 0 < t < |m'| && m'[t] == m[t] && 0 < t < |m|
    {
      TitleStays(m, m', W, T, P, chains, t);
    }
  }

  /** A block whose pointers were followed. */
  lemma BlockOkMoved(m: seq<Descr>, m': seq<Descr>, W: World, T: Tables, P: set<int>, chains: seq<seq<int>>, i: int)
    requires MarkedOk(m, W, T, P, chains) && Collected(m, m', W, P, T.oblist, chains)
    requires 0 <= i < |W.dyn| && Stays(m, W, i)
    ensures BlockOk(m', NewWorld(m, W), Room(m, W, i))
  {
    hide Room, NewAddr, Permanent, Placed, Scratch, Chained, LowCell, ChainMoved, PtrOk, TargetOk, NewDyn, Renamed;
    var t, to, W' := W.dyn[i], Room(m, W, i), NewWorld(m, W);
    TitleMoved(m, m', W, i);
    assert TitleAt(m, t);
    assert Traced(m[t]) < BkSize(m[t]);
    forall x | to < x <= to + Traced(m'[to])
      ensures PtrOk(m', W', m'[x])
    {
      var o := x - to;
      assert CellAt(m, m', W, t, to, o);
      FollowedSlot(m, W, t, o);
      PtrMoved(m, m', W, T, P, chains, m[t + o]);
    }
  }

  lemma BlockOkListed(m: seq<Descr>, m': seq<Descr>, W: World, T: Tables, P: set<int>, chains: seq<seq<int>>, p: int)
    requires MarkedOk(m, W, T, P, chains) && Collected(m, m', W, P, T.oblist, chains) && p in P
    ensures BlockOk(m', NewWorld(m, W), p)
  {
    hide NewWorld, NewAddr, Permanent, Placed, Scratch, Chained, BlockMoved, ChainMoved, PtrOk, TargetOk, Renamed;
    TitleStays(m, m', W, T, P, chains, p);
    forall x | p < x <= p + Traced(m'[p])
      ensures PtrOk(m', NewWorld(m, W), m'[x])
    {
      FollowedSlot(m, W, p, x - p);
      SlotTop(m, W, p, x);
      assert LowCell(m, m', W, P, T.oblist, |chains|, x);
      PtrMoved(m, m', W, T, P, chains, m[x]);
    }
  }

  lemma {:induction false} TopLow(m: seq<Descr>, m': seq<Descr>, lo: int, a: int)
    requires 0 <= a < lo <= |m| == |m'|
    requires forall i :: 0 <= i < lo ==> m'[i].ttl == m[i].ttl
    ensures TopOf(m', a) == TopOf(m, a)
    decreases a
  {
    if !m[a].ttl && a > 0 {
      TopLow(m, m', lo, a - 1);
    }
  }

  lemma RenamedTtl(m: seq<Descr>, W: World, d: Descr)
    ensures Renamed(m, W, d).ttl == d.ttl
  {
  }

  lemma LowSame(m: seq<Descr>, m': seq<Descr>, W: World, T: Tables, P: set<int>, chains: seq<seq<int>>, x: int)
    requires MarkedOk(m, W, T, P, chains) && Collected(m, m', W, P, T.oblist, chains) && 0 <= x < W.lo
    ensures x < |m| == |m'| && m'[x].ttl == m[x].ttl && (SlotIn(m', P, x) <==> SlotIn(m, P, x))
    ensures !SlotIn(m, P, x) && !InBins(T, x) ==> m'[x] == m[x]
  {
    hide Permanent, Placed, Scratch, Chained, BlockMoved, ChainMoved, Renamed, Followed;
    forall i | 0 <= i < W.lo
      ensures m'[i].ttl == m[i].ttl
    {
      assert LowCell(m, m', W, P, T.oblist, |chains|, i);
      RenamedTtl(m, W, m[i]);
    }
    TopLow(m, m', W.lo, x);
    assert LowCell(m, m', W, P, T.oblist, |chains|, x);
    if TopOf(m, x) in P {
      TitleStays(m, m', W, T, P, chains, TopOf(m, x));
    }
  }

  lemma PlacedAgain(m: seq<Descr>, m': seq<Descr>, W: World, T: Tables, P: set<int>, chains: seq<seq<int>>)
    requires MarkedOk(m, W, T, P, chains) && Collected(m, m', W, P, T.oblist, chains)
    ensures Placed(m', NewWorld(m, W), T, P) && Bases(m', T) == P
  {
    hide NewDyn, Room, Permanent, Scratch, Chained, Followed, SlotIn, Tiled, Listed;
    assert |m'| == |m|;
    forall x | InTable(T, x)
      ensures 0 <= x < |m| && m'[x] == m[x] && !SlotIn(m', P, x)
    {
      LowSame(m, m', W, T, P, chains, x);
    }
    forall x | InBins(T, x)
      ensures 0 <= x < |m| && !m'[x].ttl && !SlotIn(m', P, x)
    {
      LowSame(m, m', W, T, P, chains, x);
    }
    assert forall x :: T.prmptr < x <= T.prmptr + T.prmdx ==> InTable(T, x) && m'[x] == m[x];
    ListedSame(m, m', T.prmptr, 0, T.prmdx);
  }

  lemma PseudoAgain(m: seq<Descr>, m': seq<Descr>, W: World, T: Tables, P: set<int>, chains: seq<seq<int>>)
    requires MarkedOk(m, W, T, P, chains) && Collected(m, m', W, P, T.oblist, chains)
    ensures Scratch(m', NewWorld(m, W), P, T.gcblk + 1)
  {
    hide NewDyn, Room, Collected, Permanent, Chained, Followed, Tiled, Placed;
    TiledAgain(m, m', W, T, P, chains);
    LowSame(m, m', W, T, P, chains, T.gcblk + 1);
    forall p | p in P
      ensures !SlotOf(m', p, T.gcblk + 1)
    {
      TitleStays(m, m', W, T, P, chains, p);
    }
  }

  // --------------------------------------------------------------- the chains

  /** Renaming is injective on live blocks. */
  lemma HomesDiffer(m: seq<Descr>, W: World, t: int, u: int)
    requires Tiled(m, W) && t in W.dyn && u in W.dyn && Alive(m, t) && Alive(m, u) && NewHome(m, W, t) == NewHome(m, W, u)
    ensures t == u
  {
    hide Room;
    var i :| 0 <= i < |W.dyn| && W.dyn[i] == t;
    var j :| 0 <= j < |W.dyn| && W.dyn[j] == u;
    HomeIs(m, W, i);
    HomeIs(m, W, j);
    if i < j {
      RoomOrder(m, W, i, j);
    } else if j < i {
      RoomOrder(m, W, j, i);
    }
  }

  /** The old place of the j-th string that stays. */
  ghost function Place(m: seq<Descr>, W: World, c: seq<int>, i: int, j: int): (p: int)
    requires 0 <= i <= |c| && 0 <= j < |NewChain(m, W, c, i)|
    ensures i <= p < |c| && Alive(m, c[p]) && NewChain(m, W, c, i)[j] == NewHome(m, W, c[p])
    decreases |c| - i
  {
    if Alive(m, c[i]) then (if j == 0 then i else Place(m, W, c, i + 1, j - 1)) else Place(m, W, c, i + 1, j)
  }

  lemma {:induction false} PlaceOrder(m: seq<Descr>, W: World, c: seq<int>, i: int, j: int, k: int)
    requires 0 <= i <= |c| && 0 <= j < k < |NewChain(m, W, c, i)|
    ensures Place(m, W, c, i, j) < Place(m, W, c, i, k)
    decreases |c| - i
  {
    if Alive(m, c[i]) {
      if j > 0 {
        PlaceOrder(m, W, c, i + 1, j - 1, k - 1);
      }
    } else {
      PlaceOrder(m, W, c, i + 1, j, k);
    }
  }

  /** The links of the strings that stay lead from each to the next. */
  lemma {:induction false} TailMoved(m: seq<Descr>, m': seq<Descr>, W: World, bin: int, c: seq<int>, i: int)
    requires ChainMoved(m, m', W, bin, c) && 0 <= i <= |c|
    ensures var nc := NewChain(m, W, c, i);
            && NextKept(m, W, c, i) == (if nc == [] then 0 else nc[0])
            && forall j :: 0 <= j < |nc| ==> LinkNext(m', nc, j)
    decreases |c| - i
  {
    hide NewHome;
    if i < |c| {
      TailMoved(m, m', W, bin, c, i + 1);
      var nc, rest := NewChain(m, W, c, i), NewChain(m, W, c, i + 1);
      if Alive(m, c[i]) {
        assert LinkMoved(m, m', W, bin, c, i + 1);
        forall j | 0 <= j < |nc|
          ensures LinkNext(m', nc, j)
        {
          if j > 0 {
            assert LinkNext(m', rest, j - 1);
          }
        }
      } else {
        assert nc == rest;
      }
    }
  }

  ghost predicate LinkNext(m: seq<Descr>, c: seq<int>, j: int)
    requires 0 <= j < |c|
  {
    0 <= c[j] + LNKFLD < |m| && m[c[j] + LNKFLD].a == if j + 1 < |c| then c[j + 1] else 0
  }

  lemma StringMoved(m: seq<Descr>, m': seq<Descr>, W: World, T: Tables, P: set<int>, chains: seq<seq<int>>, t: int)
    requires MarkedOk(m, W, T, P, chains) && Collected(m, m', W, P, T.oblist, chains) && ChainString(m, W, t) && Alive(m, t)
    ensures ChainString(m', NewWorld(m, W), NewHome(m, W, t))
  {
    hide Room, Chained, Placed, Followed, Permanent, Scratch, BlockMoved, ChainMoved, LowCell, NewDyn;
    var i :| 0 <= i < |W.dyn| && W.dyn[i] == t;
    HomeIs(m, W, i);
    TitleMoved(m, m', W, i);
    Listing(m, W, |W.dyn|, i);
    RoomOrder(m, W, i, |W.dyn|);
    WithinRegion(m, W);
    RoomBelow(m, W, i);
  }

  lemma ChainAgain(m: seq<Descr>, m': seq<Descr>, W: World, T: Tables, P: set<int>, chains: seq<seq<int>>, l: int)
    requires MarkedOk(m, W, T, P, chains) && Collected(m, m', W, P, T.oblist, chains) && 0 <= l < |chains|
    ensures IsChain(m', NewWorld(m, W), T.oblist + l, NewChain(m, W, chains[l], 0))
  {
    hide NextKept, NewHome, Room, Followed, Permanent, Scratch, BlockMoved, LowCell, NewDyn, Placed, Tiled;
    var bin, c, W' := T.oblist + l, chains[l], NewWorld(m, W);
    var nc := NewChain(m, W, c, 0);
    assert IsChain(m, W, bin, c) && ChainMoved(m, m', W, bin, c);
    TailMoved(m, m', W, bin, c, 0);
    assert LinkMoved(m, m', W, bin, c, 0);
    forall j | 0 <= j < |nc|
      ensures ChainString(m', W', nc[j])
    {
      var p := Place(m, W, c, 0, j);
      assert ChainString(m, W, c[p]);
      StringMoved(m, m', W, T, P, chains, c[p]);
    }
    forall j | 0 <= j <= |nc|
      ensures LinkAt(m', bin, nc, j)
    {
      if j > 0 {
        assert LinkNext(m', nc, j - 1) && ChainString(m', W', nc[j - 1]);
      }
    }
  }

  lemma ApartAgain(m: seq<Descr>, W: World, T: Tables, P: set<int>, chains: seq<seq<int>>)
    requires MarkedOk(m, W, T, P, chains)
    ensures Apart(NewChains(m, W, chains))
  {
    hide NewHome;
    var s := NewChains(m, W, chains);
    assert Tiled(m, W) && Chained(m, W, T.oblist, chains);
    forall k, i, l, j | 0 <= k < |s| && 0 <= i < |s[k]| && 0 <= l < |s| && 0 <= j < |s[l]| && s[k][i] == s[l][j]
      ensures k == l && i == j
    {
      SamePlace(m, W, T, chains, k, i, l, j);
    }
  }

  lemma SamePlace(m: seq<Descr>, W: World, T: Tables, chains: seq<seq<int>>, k: int, i: int, l: int, j: int)
    requires Tiled(m, W) && Chained(m, W, T.oblist, chains) && 0 <= k < |chains| && 0 <= l < |chains|
    requires 0 <= i < |NewChain(m, W, chains[k], 0)| && 0 <= j < |NewChain(m, W, chains[l], 0)|
    requires NewChain(m, W, chains[k], 0)[i] == NewChain(m, W, chains[l], 0)[j]
    ensures k == l && i == j
  {
    hide NewHome, Tiled, NewChain;
    var p, q := Place(m, W, chains[k], 0, i), Place(m, W, chains[l], 0, j);
    assert IsChain(m, W, T.oblist + k, chains[k]) && IsChain(m, W, T.oblist + l, chains[l]);
    assert ChainString(m, W, chains[k][p]) && ChainString(m, W, chains[l][q]);
    HomesDiffer(m, W, chains[k][p], chains[l][q]);
    assert k == l && p == q;
    if i < j {
      PlaceOrder(m, W, chains[k], 0, i, j);
    } else if j < i {
      PlaceOrder(m, W, chains[k], 0, j, i);
    }
  }

  /** A collection leaves storage in order. */
  lemma SoundAgain(m: seq<Descr>, m': seq<Descr>, W: World, T: Tables, P: set<int>, chains: seq<seq<int>>)
    requires MarkedOk(m, W, T, P, chains) && Collected(m, m', W, P, T.oblist, chains)
    ensures Sound(m', NewWorld(m, W), T, NewChains(m, W, chains)) && Bases(m', T) == P
  {
    hide Apart, Bases, BkSize, BlockOk, Collected, Followed, Homed, IsChain, NewChain, NewDyn, Permanent, Placed,
      Room, Scratch, Stays, Tiled;
    var W' := NewWorld(m, W);
    TiledAgain(m, m', W, T, P, chains);
    PermanentAgain(m, m', W, T, P, chains);
    PlacedAgain(m, m', W, T, P, chains);
    PseudoAgain(m, m', W, T, P, chains);
    forall t | t in W'.dyn
      ensures BlockOk(m', W', t)
    {
      var j :| 0 <= j < |W'.dyn| && W'.dyn[j] == t;
      var i := Origin(m, W, |W.dyn|, j);
      BlockOkMoved(m, m', W, T, P, chains, i);
    }
    assert forall p :: p in P ==> p in W.perm && p != T.gcblk + 1;
    forall p | p in P
      ensures BlockOk(m', W', p)
    {
      BlockOkListed(m, m', W, T, P, chains, p);
    }
    ChainedAgain(m, m', W, T, P, chains);
    assert |NewChains(m, W, chains)| == T.obsiz;
  }

  lemma ChainedAgain(m: seq<Descr>, m': seq<Descr>, W: World, T: Tables, P: set<int>, chains: seq<seq<int>>)
    requires MarkedOk(m, W, T, P, chains) && Collected(m, m', W, P, T.oblist, chains)
    ensures Chained(m', NewWorld(m, W), T.oblist, NewChains(m, W, chains))
  {
    hide Apart, Collected, IsChain, MarkedOk, NewChain, NewWorld;
    ApartAgain(m, W, T, P, chains);
    forall k | 0 <= k < |chains|
      ensures IsChain(m', NewWorld(m, W), T.oblist + k, NewChain(m, W, chains[k], 0))
    {
      ChainAgain(m, m', W, T, P, chains, k);
    }
  }

  // ------------------------------------------------------------- what is kept

  /** A whole collection: from m0 in world W0 to m1 in world W1, with the live
      blocks marked in m. */
  ghost predicate Regenerated(m0: seq<Descr>, W0: World, m: seq<Descr>, m1: seq<Descr>, W1: World, T: Tables,
                              chains: seq<seq<int>>, chains1: seq<seq<int>>) {
    && LiveMarked(m0, m, W0, T, KeptOn(m0, chains, |chains|)) && MarkedOk(m, W0, T, Bases(m0, T), chains)
    && Collected(m, m1, W0, Bases(m0, T), T.oblist, chains)
    && W1 == NewWorld(m, W0) && chains1 == NewChains(m, W0, chains)
  }

  /** Two live blocks keep their order, and none moves up. */
  lemma OrderKept(m: seq<Descr>, W: World, i: int, j: int)
    requires Tiled(m, W) && 0 <= i < |W.dyn| && 0 <= j < |W.dyn| && Stays(m, W, i) && Stays(m, W, j)
    ensures NewHome(m, W, W.dyn[i]) <= W.dyn[i]
    ensures W.dyn[i] < W.dyn[j] <==> NewHome(m, W, W.dyn[i]) < NewHome(m, W, W.dyn[j])
  {
    hide Room;
    RoomBelow(m, W, i);
    HomeIs(m, W, i);
    HomeIs(m, W, j);
    if i < j {
      RoomOrder(m, W, i, j);
      Ascending(m, W, i, j);
    } else if j < i {
      RoomOrder(m, W, j, i);
      Ascending(m, W, j, i);
    }
  }

  /** e is what has become of the descriptor d: nothing but its pointer has
      changed, and that leads to the same place in the same block. */
  ghost predicate PointerKept(m: seq<Descr>, m': seq<Descr>, W: World, d: Descr, e: Descr) {
    && e == d.(a := e.a)
    && (!d.ptr || d.a == 0 ==> e == d)
    && (d.ptr && d.a != 0 ==>
          && 0 < d.a < |m| && 0 < e.a < |m'|
          && TopOf(m', e.a) == NewHome(m, W, TopOf(m, d.a))
          && e.a - TopOf(m', e.a) == d.a - TopOf(m, d.a))
  }

  lemma RenamedKept(m: seq<Descr>, m': seq<Descr>, W: World, T: Tables, P: set<int>, chains: seq<seq<int>>, d: Descr)
    requires MarkedOk(m, W, T, P, chains) && Collected(m, m', W, P, T.oblist, chains) && TargetOk(m, W, d)
    ensures PointerKept(m, m', W, d, Renamed(m, W, d))
  {
    hide MarkedOk, Collected, NewHome, NewWorld, TitleAt, Owner, Leads;
    if d.ptr && d.a != 0 {
      var u := TopOf(m, d.a);
      LeadMoved(m, m', W, T, P, chains, u);
      TopInBlock(m', NewHome(m, W, u), NewAddr(m, W, d.a));
      TitleRange(m', NewHome(m, W, u));
    }
  }

  lemma LiveStays(m0: seq<Descr>, m: seq<Descr>, W: World, T: Tables, K: set<int>, t: int) returns (i: int)
    requires LiveMarked(m0, m, W, T, K) && Tiled(m, W) && t in W.dyn && Live(m0, W, Bases(m0, T), K, t)
    ensures 0 <= i < |W.dyn| && W.dyn[i] == t && Stays(m, W, i)
    ensures 0 < t < |m| == |m0| && m[t] == m0[t].(mark := true)
  {
    hide Live;
    i :| 0 <= i < |W.dyn| && W.dyn[i] == t;
    InRegion(m, W, i);
  }

  lemma CellKept(m: seq<Descr>, m1: seq<Descr>, W: World, T: Tables, P: set<int>, chains: seq<seq<int>>, i: int, o: int)
    requires MarkedOk(m, W, T, P, chains) && Collected(m, m1, W, P, T.oblist, chains)
    requires 0 <= i < |W.dyn| && Stays(m, W, i) && 0 < o < BkSize(m[W.dyn[i]])
    ensures var t, t1 := W.dyn[i], Room(m, W, i);
            && 0 < t1 && t1 + o < |m1| && t + o < |m|
            && (o <= Traced(m[t]) ==> PointerKept(m, m1, W, m[t + o], m1[t1 + o]))
            && (o > Traced(m[t]) && o == LNKFLD ==> m1[t1 + o] == m[t + o].(a := m1[t1 + o].a))
            && (o > Traced(m[t]) && o != LNKFLD ==> m1[t1 + o] == m[t + o])
  {
    hide NewHome, Room, Permanent, Placed, Scratch, Chained, LowCell, ChainMoved, Renamed, PointerKept, TargetOk, Tiled, Homed;
    assert CellAt(m, m1, W, W.dyn[i], Room(m, W, i), o);
    if o <= Traced(m[W.dyn[i]]) {
      FollowedSlot(m, W, W.dyn[i], o);
      RenamedKept(m, m1, W, T, P, chains, m[W.dyn[i] + o]);
    }
  }

  lemma HeaderKept(m: seq<Descr>, m1: seq<Descr>, W: World, T: Tables, P: set<int>, chains: seq<seq<int>>, i: int)
    requires MarkedOk(m, W, T, P, chains) && Collected(m, m1, W, P, T.oblist, chains)
    requires 0 <= i < |W.dyn| && Stays(m, W, i)
    ensures var t, t1 := W.dyn[i], NewHome(m, W, W.dyn[i]);
            && t1 == Room(m, W, i) && t1 in NewWorld(m, W).dyn && 0 < t1 < |m1|
            && m1[t1] == m[t].(a := t1, mark := false)
  {
    hide Room, Permanent, Placed, Scratch, Chained, LowCell, ChainMoved, Followed, NewDyn, NewHome, BlockMoved, TitleAt;
    HomeIs(m, W, i);
    TitleMoved(m, m1, W, i);
    TitleRange(m1, Room(m, W, i));
    Listing(m, W, |W.dyn|, i);
  }

  /** The same, for storage m0 as it was before marking. */
  ghost predicate KeptSince(m0: seq<Descr>, m: seq<Descr>, m1: seq<Descr>, W: World, d: Descr, e: Descr) {
    && e == d.(a := e.a)
    && (!d.ptr || d.a == 0 ==> e == d)
    && (d.ptr && d.a != 0 ==>
          && 0 < d.a < |m0| && 0 < e.a < |m1|
          && TopOf(m1, e.a) == NewHome(m, W, TopOf(m0, d.a))
          && e.a - TopOf(m1, e.a) == d.a - TopOf(m0, d.a))
  }

  lemma TitlesSame(m0: seq<Descr>, m: seq<Descr>, W: World, T: Tables, K: set<int>, a: int)
    requires LiveMarked(m0, m, W, T, K) && Scratch(m, W, Bases(m0, T), T.gcblk + 1) && !m0[T.gcblk + 1].ttl && 0 <= a < |m0|
    ensures |m| == |m0| && TopOf(m, a) == TopOf(m0, a)
  {
    hide Live;
    forall x | 0 <= x <= a
      ensures m[x].ttl == m0[x].ttl
    {
    }
    TopSame(m0, m, a);
  }

  lemma NotScratch(m0: seq<Descr>, m: seq<Descr>, W: World, T: Tables, K: set<int>, i: int, o: int)
    requires LiveMarked(m0, m, W, T, K) && Tiled(m, W) && T.gcblk + 1 < W.lo
    requires 0 <= i < |W.dyn| && 0 <= W.dyn[i] < |m| && 0 < o < BkSize(m[W.dyn[i]])
    ensures 0 < W.dyn[i] < W.dyn[i] + o < |m| == |m0| && m[W.dyn[i] + o] == m0[W.dyn[i] + o]
  {
    hide Live, Bases, BkSize;
    InRegion(m, W, i);
    if W.dyn[i] + o in W.dyn {
      Inside(m, W, i, W.dyn[i] + o);
    }
  }

  lemma CollectedFrom(m0: seq<Descr>, W: World, m: seq<Descr>, m1: seq<Descr>, W1: World, T: Tables,
                     chains: seq<seq<int>>, chains1: seq<seq<int>>)
    requires Regenerated(m0, W, m, m1, W1, T, chains, chains1)
    ensures LiveMarked(m0, m, W, T, KeptOn(m0, chains, |chains|)) && Tiled(m, W) && T.gcblk + 1 < W.lo
  {
    hide LiveMarked, Collected, Chained, Followed, Homed, Placed, Tiled, Permanent, NewChains, NewWorld, KeptOn;
  }

  /** Every descriptor of every live block survives, pointing where it did. */
  lemma LiveKept(m0: seq<Descr>, W: World, m: seq<Descr>, m1: seq<Descr>, W1: World, T: Tables,
                 chains: seq<seq<int>>, chains1: seq<seq<int>>, t: int, o: int)
    requires Regenerated(m0, W, m, m1, W1, T, chains, chains1) && t in W.dyn && 0 <= t < |m0|
    requires Live(m0, W, Bases(m0, T), KeptOn(m0, chains, |chains|), t)
    requires 0 < o < BkSize(m0[t])
    requires Sound(m0, W, T, chains)
    ensures var t1 := NewHome(m, W, t);
            && t1 in W1.dyn && 0 < t1 && t1 + o < |m1| && t + o < |m0| == |m|
            && m1[t1] == m0[t].(a := t1, mark := false)
            && (o <= Traced(m0[t]) ==> KeptSince(m0, m, m1, W, m0[t + o], m1[t1 + o]))
            && (o > Traced(m0[t]) && o == LNKFLD ==> m1[t1 + o] == m0[t + o].(a := m1[t1 + o].a))
            && (o > Traced(m0[t]) && o != LNKFLD ==> m1[t1 + o] == m0[t + o])
  {
    hide Bases, Chained, Collected, Followed, Homed, KeptOn, Live, LiveMarked, NewChains, NewHome, NewWorld,
      Permanent, Placed, PointerKept, Room, Scratch, Stays, Tiled, KeptSince, Sound;
    var P, K := Bases(m0, T), KeptOn(m0, chains, |chains|);
    assert Tiled(m, W);
    var i := LiveStays(m0, m, W, T, K, t);
    HeaderKept(m, m1, W, T, P, chains, i);
    CellKept(m, m1, W, T, P, chains, i, o);
    CollectedFrom(m0, W, m, m1, W1, T, chains, chains1);
    NotScratch(m0, m, W, T, K, i, o);
    if o <= Traced(m0[t]) {
      Since(m0, W, m, m1, W1, T, chains, chains1, m0[t + o], m1[NewHome(m, W, t) + o]);
    }
  }

  lemma Since(m0: seq<Descr>, W: World, m: seq<Descr>, m1: seq<Descr>, W1: World, T: Tables,
              chains: seq<seq<int>>, chains1: seq<seq<int>>, d: Descr, e: Descr)
    requires Regenerated(m0, W, m, m1, W1, T, chains, chains1) && PointerKept(m, m1, W, d, e) && Sound(m0, W, T, chains)
    ensures KeptSince(m0, m, m1, W, d, e)
  {
    hide Bases, Chained, Collected, Followed, Homed, KeptOn, Live, LiveMarked, NewChains, NewHome, NewWorld,
      Permanent, Placed, Room, Stays, Tiled, TopOf, BlockOk;
    if d.ptr && d.a != 0 {
      assert |m| == |m0| by { SameLength(m0, m, W, T, KeptOn(m0, chains, |chains|)); }
      TitlesSame(m0, m, W, T, KeptOn(m0, chains, |chains|), d.a);
    }
  }

  lemma SameLength(m0: seq<Descr>, m: seq<Descr>, W: World, T: Tables, K: set<int>)
    requires LiveMarked(m0, m, W, T, K)
    ensures |m| == |m0|
  {
    hide Live;
  }

  /** So does every descriptor of every listed block. */
  lemma ListedKept(m0: seq<Descr>, W: World, m: seq<Descr>, m1: seq<Descr>, W1: World, T: Tables,
                   chains: seq<seq<int>>, chains1: seq<seq<int>>, p: int, x: int)
    requires Regenerated(m0, W, m, m1, W1, T, chains, chains1) && p in Bases(m0, T) && SlotOf(m0, p, x)
    requires Sound(m0, W, T, chains)
    ensures |m1| == |m| == |m0| && x < W.lo && m[x] == m0[x]
    ensures PointerKept(m, m1, W, m0[x], m1[x]) && KeptSince(m0, m, m1, W, m0[x], m1[x])
  {
    hide NewHome, Room, Placed, Chained, ChainMoved, BlockMoved, Renamed, PointerKept, Live, NewDyn, TargetOk;
    var P := Bases(m0, T);
    assert x < W.lo && x != T.gcblk + 1 && p != T.gcblk + 1 && 0 < p < W.lo;
    forall t | t in W.dyn
      ensures W.lo <= t
    {
      DynTitle(m, W, t);
    }
    assert m[p] == m0[p] && m[x] == m0[x];
    FollowedSlot(m, W, p, x - p);
    SlotTop(m, W, p, x);
    assert LowCell(m, m1, W, P, T.oblist, |chains|, x);
    RenamedKept(m, m1, W, T, P, chains, m[x]);
    Since(m0, W, m, m1, W1, T, chains, chains1, m0[x], m1[x]);
  }
}
