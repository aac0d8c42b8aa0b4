/** Storage in order: what holds between collections, and how it carries over
    to the memory in which all live blocks are marked. */
module Soundness {
  import opened Heap
  import opened Marking
  import opened Roots
  import opened Forwarding
  import opened Relinking
  import opened Relocation
  import opened Sliding
  import opened Compaction

  /** Where the collector's own tables are: the listed permanent blocks, the
      hash bins (less LNKFLD), and the pseudo-block. */
  datatype Tables = Tables(prmptr: int, prmdx: int, oblist: int, obsiz: int, gcblk: int)

  /** The permanent blocks that marking starts from. */
  ghost function Bases(m: seq<Descr>, T: Tables): (P: set<int>) {
    if 0 <= T.prmptr && 0 <= T.prmdx && T.prmptr + T.prmdx < |m| then Listed(m, T.prmptr, 0, T.prmdx) else {}
  }

  predicate InTable(T: Tables, x: int) {
    T.prmptr < x <= T.prmptr + T.prmdx
  }

  predicate InBins(T: Tables, x: int) {
    T.oblist <= x - LNKFLD < T.oblist + T.obsiz
  }

  /** The tables lie in the permanent region, apart from what is listed. */
  ghost predicate Placed(m: seq<Descr>, W: World, T: Tables, P: set<int>) {
    && 0 < T.prmptr && 0 < T.prmdx && T.prmptr + T.prmdx < W.lo <= |m| && 0 < T.obsiz
    && (forall x, y :: T.prmptr < x < y <= T.prmptr + T.prmdx && m[x].a == m[y].a ==> m[x].a == 0)
    && (forall x :: InTable(T, x) ==> !InBins(T, x) && x != T.gcblk + 1 && !SlotIn(m, P, x))
    && (forall x :: InBins(T, x) ==> 0 < x < W.lo && x != T.gcblk + 1 && !SlotIn(m, P, x) && !m[x].ttl)
  }

  /** Storage is in order. */
  ghost predicate Sound(m: seq<Descr>, W: World, T: Tables, chains: seq<seq<int>>) {
    && BaseOk(m, W, Bases(m, T), T.gcblk) && Homed(m, W) && Placed(m, W, T, Bases(m, T))
    && (forall t :: t in W.dyn && 0 < t < |m| ==> !m[t].mark)
    && |chains| == T.obsiz && Chained(m, W, T.oblist, chains)
  }

  /** All live blocks are marked, and storage is otherwise in order. */
  ghost predicate MarkedOk(m: seq<Descr>, W: World, T: Tables, P: set<int>, chains: seq<seq<int>>) {
    && Tiled(m, W) && Homed(m, W) && Permanent(m, W) && Placed(m, W, T, P) && P == Bases(m, T)
    && T.gcblk in W.perm && 0 < T.gcblk < |m| && m[T.gcblk].v == 1 && Scratch(m, W, P, T.gcblk + 1)
    && (forall p :: p in P ==> p in W.perm && p != T.gcblk + 1 && Followed(m, W, p))
    && (forall i :: 0 <= i < |W.dyn| && Stays(m, W, i) ==> Followed(m, W, W.dyn[i]))
    && |chains| == T.obsiz && Chained(m, W, T.oblist, chains)
  }

  // ------------------------------------------------------------ after marking

  /** n is memory before marking but for the scratch cell, m after. */
  ghost predicate Marks(m0: seq<Descr>, n: seq<Descr>, m: seq<Descr>, W: World, T: Tables, P: set<int>, K: set<int>) {
    && ButScratch(m0, n, T.gcblk + 1) && BaseOk(n, W, P, T.gcblk) && MarkedFrom(n, m, W, P, K)
  }

  lemma MarkedTiled(n: seq<Descr>, m: seq<Descr>, W: World)
    requires Tiled(n, W) && Permanent(n, W) && Marked(n, m, W)
    ensures Tiled(m, W) && Permanent(m, W)
  {
    forall i | 0 <= i < |W.dyn|
      ensures BlockAt(m, W, i)
    {
      assert BlockAt(n, W, i);
    }
    forall t | t in W.dyn
      ensures t >= W.lo
    {
      DynTitle(n, W, t);
    }
  }

  lemma MarkedTarget(n: seq<Descr>, m: seq<Descr>, W: World, d: Descr)
    requires Tiled(n, W) && Permanent(n, W) && Marked(n, m, W) && PtrOk(n, W, d) && Good(n, m, d)
    ensures TargetOk(m, W, d)
  {
    if d.ptr && d.a != 0 {
      MarkedTop(n, m, W, d.a);
      if TopOf(n, d.a) in W.dyn {
        DynTitle(n, W, TopOf(n, d.a));
      }
    }
  }

  /** A block whose pointers lead to marked blocks only. */
  lemma MarkedFollowed(n: seq<Descr>, m: seq<Descr>, W: World, t: int)
    requires Tiled(n, W) && Permanent(n, W) && Marked(n, m, W) && BlockOk(n, W, t) && Closed(n, m, t)
    requires TitleAt(n, t)
    ensures Followed(m, W, t)
  {
    hide PtrOk, TargetOk, Good;
    forall j | SlotOf(m, t, j)
      ensures !m[j].ttl && TargetOk(m, W, m[j])
    {
      assert SlotOf(n, t, j) && !n[j].ttl;
      if j in W.dyn {
        DynTitle(n, W, j);
      }
      assert PtrOk(n, W, n[j]);
      MarkedTarget(n, m, W, m[j]);
    }
  }

  lemma {:induction false} ListedSame(m0: seq<Descr>, m: seq<Descr>, ptr: int, i: int, size: int)
    requires 0 <= ptr && 0 <= i && ptr + size < |m0| == |m|
    requires forall x :: ptr < x <= ptr + size ==> m[x].a == m0[x].a
    ensures Listed(m, ptr, i, size) == Listed(m0, ptr, i, size)
    decreases size - i
  {
    if i < size {
      ListedSame(m0, m, ptr, i + 1, size);
    }
  }

  /** Cells below the dynamic region that marking leaves alone. */
  lemma MarksLow(m0: seq<Descr>, n: seq<Descr>, m: seq<Descr>, W: World, T: Tables, P: set<int>, K: set<int>, x: int)
    requires Marks(m0, n, m, W, T, P, K) && 0 <= x < W.lo
    ensures x < |m0| == |m| && (x != T.gcblk + 1 ==> m[x] == m0[x])
  {
    BelowKept(n, m, W, x);
  }

  lemma MarksTitles(m0: seq<Descr>, n: seq<Descr>, m: seq<Descr>, W: World, T: Tables, P: set<int>, K: set<int>)
    requires Marks(m0, n, m, W, T, P, K) && BaseOk(m0, W, P, T.gcblk)
    ensures |m| == |m0| && forall x :: 0 <= x < |m| ==> m[x].ttl == m0[x].ttl
  {
  }

  lemma MarksSlot(m0: seq<Descr>, n: seq<Descr>, m: seq<Descr>, W: World, T: Tables, P: set<int>, K: set<int>, x: int)
    requires Marks(m0, n, m, W, T, P, K) && BaseOk(m0, W, P, T.gcblk) && 0 <= x < |m0|
    ensures |m| == |m0| && (SlotIn(m, P, x) <==> SlotIn(m0, P, x))
  {
    hide MarkedFrom;
    MarksTitles(m0, n, m, W, T, P, K);
    TopSame(m0, m, x);
    var t := TopOf(m0, x);
    if t in P {
      assert t < W.lo && t != T.gcblk + 1 by {
      }
      if 0 <= t {
        MarksLow(m0, n, m, W, T, P, K, t);
      }
    }
  }

  lemma MarksPlaced(m0: seq<Descr>, n: seq<Descr>, m: seq<Descr>, W: World, T: Tables, P: set<int>, K: set<int>)
    requires Marks(m0, n, m, W, T, P, K) && BaseOk(m0, W, P, T.gcblk) && Placed(m0, W, T, P)
    ensures Placed(m, W, T, P)
    ensures 0 <= T.prmptr && 0 <= T.prmdx && T.prmptr + T.prmdx < |m0| == |m|
    ensures Listed(m, T.prmptr, 0, T.prmdx) == Listed(m0, T.prmptr, 0, T.prmdx)
  {
    hide Marks, BaseOk, SlotIn;
    MarksTitles(m0, n, m, W, T, P, K);
    forall x | InTable(T, x)
      ensures m[x] == m0[x] && !SlotIn(m, P, x)
    {
      MarksLow(m0, n, m, W, T, P, K, x);
      MarksSlot(m0, n, m, W, T, P, K, x);
    }
    forall x | InBins(T, x)
      ensures !SlotIn(m, P, x)
    {
      MarksSlot(m0, n, m, W, T, P, K, x);
    }
    assert forall x :: T.prmptr < x <= T.prmptr + T.prmdx ==> InTable(T, x) && m[x] == m0[x];
    ListedSame(m0, m, T.prmptr, 0, T.prmdx);
  }

  lemma MarksChain(m0: seq<Descr>, n: seq<Descr>, m: seq<Descr>, W: World, T: Tables, P: set<int>, K: set<int>, bin: int, c: seq<int>)
    requires Marks(m0, n, m, W, T, P, K) && BaseOk(m0, W, P, T.gcblk) && IsChain(m0, W, bin, c)
    requires bin + LNKFLD != T.gcblk + 1
    ensures IsChain(m, W, bin, c)
  {
    hide BaseOk, MarkedFrom;
    forall i | 0 <= i < |c|
      ensures ChainString(m, W, c[i])
    {
      assert ChainString(m0, W, c[i]);
      MarksTitle(m0, n, m, W, T, P, K, c[i]);
    }
    forall i | 0 <= i <= |c|
      ensures LinkAt(m, bin, c, i)
    {
      LinkKept(m0, n, m, W, P, K, T.gcblk, bin, c, i);
    }
  }

  lemma MarksTitle(m0: seq<Descr>, n: seq<Descr>, m: seq<Descr>, W: World, T: Tables, P: set<int>, K: set<int>, t: int)
    requires Marks(m0, n, m, W, T, P, K) && BaseOk(m0, W, P, T.gcblk) && t in W.dyn
    ensures 0 < t < |m| == |m0| && m[t] == m0[t].(mark := m[t].mark)
  {
    DynTitle(m0, W, t);
  }

  lemma MarksScratch(m0: seq<Descr>, n: seq<Descr>, m: seq<Descr>, W: World, T: Tables, P: set<int>, K: set<int>)
    requires Marks(m0, n, m, W, T, P, K) && BaseOk(m0, W, P, T.gcblk)
    ensures Scratch(m, W, P, T.gcblk + 1)
  {
    MarksTitles(m0, n, m, W, T, P, K);
    forall p | p in P
      ensures !SlotOf(m, p, T.gcblk + 1)
    {
      MarksLow(m0, n, m, W, T, P, K, p);
    }
  }

  lemma MarksFollowed(m0: seq<Descr>, n: seq<Descr>, m: seq<Descr>, W: World, T: Tables, P: set<int>, K: set<int>)
    requires Marks(m0, n, m, W, T, P, K)
    ensures Tiled(m, W) && Permanent(m, W)
    ensures forall p :: p in P ==> p in W.perm && p != T.gcblk + 1 && Followed(m, W, p)
    ensures forall i :: 0 <= i < |W.dyn| && Stays(m, W, i) ==> Followed(m, W, W.dyn[i])
  {
    hide TitleAt, Marked, Closed, Followed, BlockOk, Live, Scratch, ButScratch;
    MarkedTiled(n, m, W);
    forall p | p in P
      ensures Followed(m, W, p)
    {
      MarkedFollowed(n, m, W, p);
    }
    forall i | 0 <= i < |W.dyn| && Stays(m, W, i)
      ensures Followed(m, W, W.dyn[i])
    {
      DynTitle(n, W, W.dyn[i]);
      MarkedFollowed(n, m, W, W.dyn[i]);
    }
  }

  lemma MarksChained(m0: seq<Descr>, n: seq<Descr>, m: seq<Descr>, W: World, T: Tables, P: set<int>, K: set<int>, chains: seq<seq<int>>)
    requires Marks(m0, n, m, W, T, P, K) && BaseOk(m0, W, P, T.gcblk) && Placed(m0, W, T, P)
    requires |chains| == T.obsiz && Chained(m0, W, T.oblist, chains)
    ensures Chained(m, W, T.oblist, chains)
  {
    hide Marks, BaseOk, IsChain, Apart, SlotIn;
    forall k | 0 <= k < |chains|
      ensures IsChain(m, W, T.oblist + k, chains[k])
    {
      assert InBins(T, T.oblist + k + LNKFLD);
      MarksChain(m0, n, m, W, T, P, K, T.oblist + k, chains[k]);
    }
  }

  lemma MarksHomed(m0: seq<Descr>, n: seq<Descr>, m: seq<Descr>, W: World, T: Tables, P: set<int>, K: set<int>)
    requires Marks(m0, n, m, W, T, P, K) && BaseOk(m0, W, P, T.gcblk) && Homed(m0, W)
    ensures Homed(m, W)
  {
    hide Marks, BaseOk;
    forall t | t in W.dyn && 0 <= t < |m|
      ensures m[t].a == t
    {
      MarksTitle(m0, n, m, W, T, P, K, t);
    }
  }

  lemma MarksPseudo(m0: seq<Descr>, n: seq<Descr>, m: seq<Descr>, W: World, T: Tables, P: set<int>, K: set<int>)
    requires Marks(m0, n, m, W, T, P, K)
    ensures T.gcblk in W.perm && 0 < T.gcblk < |m| && m[T.gcblk].v == 1
  {
  }

  /** Marking leaves storage in order. */
  lemma MarksSound(m0: seq<Descr>, n: seq<Descr>, m: seq<Descr>, W: World, T: Tables, P: set<int>, K: set<int>, chains: seq<seq<int>>)
    requires Sound(m0, W, T, chains) && P == Bases(m0, T) && Marks(m0, n, m, W, T, P, K)
    ensures MarkedOk(m, W, T, P, chains)
  {
    hide BaseOk, Chained, Followed, Homed, Listed, Marks, Permanent, Placed, Scratch, Stays, Tiled;
    MarksPlaced(m0, n, m, W, T, P, K);
    MarksFollowed(m0, n, m, W, T, P, K);
    MarksChained(m0, n, m, W, T, P, K, chains);
    MarksHomed(m0, n, m, W, T, P, K);
    MarksScratch(m0, n, m, W, T, P, K);
    MarksPseudo(m0, n, m, W, T, P, K);
    assert 0 <= T.prmptr && 0 <= T.prmdx && T.prmptr + T.prmdx < |m|;
  }

  /** m is m0 with exactly the live blocks marked; the scratch cell may differ. */
  ghost predicate LiveMarked(m0: seq<Descr>, m: seq<Descr>, W: World, T: Tables, K: set<int>) {
    && |m| == |m0|
    && (forall x :: 0 <= x < |m0| && x !in W.dyn && x != T.gcblk + 1 ==> m[x] == m0[x])
    && (forall t :: t in W.dyn && 0 <= t < |m0| ==> m[t] == m0[t].(mark := Live(m0, W, Bases(m0, T), K, t)))
  }

  /** The blocks whose descriptors a collection relocates. */
  ghost function Survivors(m0: seq<Descr>, W: World, T: Tables, K: set<int>): set<int> {
    Bases(m0, T) + set t | t in W.dyn && Live(m0, W, Bases(m0, T), K, t)
  }

  /** There is something to keep; and the barrier is above null pointers, or
      will be, as there is something to throw away, or it does not matter. */
  ghost predicate Collectable(m0: seq<Descr>, W: World, T: Tables, K: set<int>, mv: int) {
    && (exists t :: t in W.dyn && Live(m0, W, Bases(m0, T), K, t))
    && ((exists t :: t in W.dyn && !Live(m0, W, Bases(m0, T), K, t)) || NullsBelow(m0, Survivors(m0, W, T, K), mv))
  }

  lemma MarksLive(m0: seq<Descr>, n: seq<Descr>, m: seq<Descr>, W: World, T: Tables, K: set<int>)
    requires BaseOk(m0, W, Bases(m0, T), T.gcblk) && Marks(m0, n, m, W, T, Bases(m0, T), K)
    ensures LiveMarked(m0, m, W, T, K)
  {
    hide Live, Tiled, Permanent, BlockOk, Closed;
    var P, x := Bases(m0, T), T.gcblk + 1;
    assert forall u :: u in K ==> u in W.dyn;
    forall t | t in W.dyn && 0 <= t < |m0|
      ensures m[t] == m0[t].(mark := Live(m0, W, P, K, t))
    {
      MarksTitle(m0, n, m, W, T, P, K, t);
      MarkedExactly(n, m, W, P, K, t);
      LiveScratch(m0, W, P, K, x, n[x], t);
    }
  }

  /** The condition is exact: where something is live but it does not hold,
      nothing is thrown away, so that the barrier stays where it is, and some
      descriptor to be relocated is not below it and has no title. */
  lemma NullMet(m0: seq<Descr>, W: World, T: Tables, K: set<int>, mv: int)
    requires (exists t :: t in W.dyn && Live(m0, W, Bases(m0, T), K, t)) && !Collectable(m0, W, T, K, mv)
    requires m0 != [] && !m0[0].ttl
    ensures forall t :: t in W.dyn ==> Live(m0, W, Bases(m0, T), K, t)
    ensures exists t, x :: t in Survivors(m0, W, T, K) && 0 <= x < |m0| && SlotOf(m0, t, x)
                           && m0[x].ptr && !(m0[x].a < mv) && m0[x].a == 0 && TopOf(m0, m0[x].a) == -1
  {
    hide Live, Bases, Survivors;
    var t :| t in Survivors(m0, W, T, K) && !NoNulls(m0, t);
    var x :| 0 <= x < |m0| && SlotOf(m0, t, x) && m0[x].ptr && m0[x].a == 0;
    NullUntitled(m0, m0[x]);
  }

  lemma StaysLive(m0: seq<Descr>, m: seq<Descr>, W: World, T: Tables, chains: seq<seq<int>>, K: set<int>, mv: int)
    requires Sound(m0, W, T, chains) && LiveMarked(m0, m, W, T, K) && Collectable(m0, W, T, K, mv) && Tiled(m, W)
    ensures exists i :: 0 <= i < |W.dyn| && Stays(m, W, i)
    ensures (exists i :: 0 <= i < |W.dyn| && !Stays(m, W, i))
            || NullsBelow(m, MarkedTo(m, W, |W.dyn|) + Bases(m0, T), mv)
  {
    hide Live, Bases, Sound, NullsBelow, MarkedTo;
    var P := Bases(m0, T);
    var t :| t in W.dyn && Live(m0, W, P, K, t);
    var i :| 0 <= i < |W.dyn| && W.dyn[i] == t;
    InRegion(m, W, i);
    assert Stays(m, W, i);
    if u :| u in W.dyn && !Live(m0, W, P, K, u) {
      var j :| 0 <= j < |W.dyn| && W.dyn[j] == u;
      InRegion(m, W, j);
      assert !Stays(m, W, j);
    } else {
      NullsMarked(m0, m, W, T, chains, K, mv);
    }
  }

  /** Marking does not make null pointers. */
  lemma NullsMarked(m0: seq<Descr>, m: seq<Descr>, W: World, T: Tables, chains: seq<seq<int>>, K: set<int>, mv: int)
    requires Sound(m0, W, T, chains) && LiveMarked(m0, m, W, T, K) && NullsBelow(m0, Survivors(m0, W, T, K), mv)
    ensures NullsBelow(m, MarkedTo(m, W, |W.dyn|) + Bases(m0, T), mv)
  {
    hide Live, Bases, Placed, Chained, Permanent, BlockOk, Homed, Tiled, Sound;
    var P := Bases(m0, T);
    if mv <= 0 {
      SoundTop(m0, W, T, chains);
      forall t | t in MarkedTo(m, W, |W.dyn|) + P
        ensures NoNulls(m, t)
      {
        if t in P {
          NullsBase(m0, m, W, T, chains, K, t);
        } else {
          NullsDyn(m0, m, W, T, chains, K, t);
        }
      }
    }
  }

  lemma SoundTop(m0: seq<Descr>, W: World, T: Tables, chains: seq<seq<int>>)
    requires Sound(m0, W, T, chains)
    ensures Tiled(m0, W) && Permanent(m0, W) && Scratch(m0, W, Bases(m0, T), T.gcblk + 1)
    ensures forall p :: p in Bases(m0, T) ==> p in W.perm
  {
    hide Bases, Placed, Chained, Homed, BlockOk;
  }

  lemma NullsBase(m0: seq<Descr>, m: seq<Descr>, W: World, T: Tables, chains: seq<seq<int>>, K: set<int>, t: int)
    requires Sound(m0, W, T, chains) && LiveMarked(m0, m, W, T, K) && t in Bases(m0, T) && NoNulls(m0, t)
    ensures NoNulls(m, t)
  {
    hide Live, Bases, Sound, Tiled;
    SoundTop(m0, W, T, chains);
    assert t in W.perm && 0 < t < W.lo && t !in W.dyn && TitleAt(m0, t);
    assert t != T.gcblk + 1;
    forall j | 0 <= j < |m| && SlotOf(m, t, j)
      ensures !(m[j].ptr && m[j].a == 0)
    {
      assert m[t] == m0[t] && SlotOf(m0, t, j) && j !in W.dyn;
    }
  }

  lemma NullsDyn(m0: seq<Descr>, m: seq<Descr>, W: World, T: Tables, chains: seq<seq<int>>, K: set<int>, t: int)
    requires Sound(m0, W, T, chains) && LiveMarked(m0, m, W, T, K) && t in MarkedTo(m, W, |W.dyn|)
    requires NullsBelow(m0, Survivors(m0, W, T, K), 0)
    ensures NoNulls(m, t)
  {
    hide Live, Bases, Sound;
    SoundTop(m0, W, T, chains);
    MarkedAlive(m, W, |W.dyn|, t);
    var i :| 0 <= i < |W.dyn| && W.dyn[i] == t && Stays(m, W, i);
    InRegion(m0, W, i);
    assert t in Survivors(m0, W, T, K) && NoNulls(m0, t);
    forall j | 0 <= j < |m| && SlotOf(m, t, j)
      ensures !(m[j].ptr && m[j].a == 0)
    {
      assert SlotOf(m0, t, j) && m0[t].v == m[t].v;
      if j in W.dyn {
        Inside(m0, W, i, j);
      }
    }
  }

  // --------------------------------------------------- between the passes

  /** Forwarding touches titles only. */
  lemma ForwardedChain(m: seq<Descr>, n1: seq<Descr>, W: World, bin: int, c: seq<int>)
    requires Tiled(m, W) && Forwarded(m, n1, W, |W.dyn|) && IsChain(m, W, bin, c)
    ensures IsChain(n1, W, bin, c)
  {
    hide TitleAt, Room;
    forall i | 0 <= i < |c|
      ensures ChainString(n1, W, c[i])
    {
      assert ChainString(m, W, c[i]);
      var k :| 0 <= k < |W.dyn| && W.dyn[k] == c[i];
      assert FwdAt(m, n1, W, k, |W.dyn|);
    }
    forall i | 0 <= i <= |c|
      ensures LinkAt(n1, bin, c, i)
    {
      assert LinkAt(m, bin, c, i);
      if i > 0 {
        assert ChainString(m, W, c[i - 1]);
      }
      NotATitle(m, W, bin, c, i);
    }
  }

  lemma NotATitle(m: seq<Descr>, W: World, bin: int, c: seq<int>, i: int)
    requires Tiled(m, W) && IsChain(m, W, bin, c) && 0 <= i <= |c|
    ensures LinkCell(bin, c, i) !in W.dyn
  {
    if LinkCell(bin, c, i) in W.dyn {
      DynTitle(m, W, LinkCell(bin, c, i));
      assert i > 0 ==> ChainString(m, W, c[i - 1]);
      if i > 0 {
        var k :| 0 <= k < |W.dyn| && W.dyn[k] == c[i - 1];
        Inside(m, W, k, LinkCell(bin, c, i));
      }
    }
  }

  lemma ForwardedChained(m: seq<Descr>, n1: seq<Descr>, W: World, oblist: int, chains: seq<seq<int>>)
    requires Tiled(m, W) && Forwarded(m, n1, W, |W.dyn|) && Chained(m, W, oblist, chains)
    ensures Chained(n1, W, oblist, chains) && Headed(m, n1, W)
  {
    hide IsChain, Tiled, Apart, FwdAt;
    forall k | 0 <= k < |chains|
      ensures IsChain(n1, W, oblist + k, chains[k])
    {
      ForwardedChain(m, n1, W, oblist + k, chains[k]);
    }
  }

  lemma ForwardedHeads(m: seq<Descr>, n1: seq<Descr>, W: World)
    requires Tiled(m, W) && Homed(m, W) && Forwarded(m, n1, W, |W.dyn|)
    ensures Heads(m, n1, W)
  {
    hide Room, NewHome;
    forall u | 0 <= u < |m|
      ensures n1[u] == m[u].(a := n1[u].a)
      ensures Leads(m, W, u) ==> n1[u].a == NewHome(m, W, u)
    {
      if u in W.dyn {
        var i :| 0 <= i < |W.dyn| && W.dyn[i] == u;
        assert FwdAt(m, n1, W, i, |W.dyn|);
        HomeIs(m, W, i);
      } else {
        assert n1[u] == m[u];
        HomeStays(m, W, u);
      }
    }
    forall u | 0 <= u < |m| && m[u].ttl
      ensures HeadAt(m, n1, W, u)
    {
    }
  }

  lemma RelinkedHeads(m: seq<Descr>, n1: seq<Descr>, n2: seq<Descr>, W: World, T: Tables, P: set<int>, chains: seq<seq<int>>)
    requires MarkedOk(m, W, T, P, chains) && Heads(m, n1, W) && Headed(m, n1, W) && Chained(n1, W, T.oblist, chains)
    requires Relinked(m, n1, n2, W, T.oblist, chains, |chains|)
    ensures Heads(m, n2, W)
  {
    hide NewHome, MarkedOk, Chained;
    assert |n2| == |n1| == |m|;
    forall u | 0 <= u < |m|
      ensures n2[u] == n1[u].(a := n2[u].a)
      ensures m[u].ttl && Leads(m, W, u) ==> n2[u] == n1[u]
    {
      LinkChange(m, n1, n2, W, T.oblist, chains, u);
      if n2[u] != n1[u] && m[u].ttl && Leads(m, W, u) {
        LinkNoLead(m, n1, W, T, P, chains, u);
        assert false;
      }
    }
    forall u | 0 <= u < |m| && m[u].ttl
      ensures HeadAt(m, n2, W, u)
    {
      assert HeadAt(m, n1, W, u);
    }
  }

  /** A link is no title that leads anywhere. */
  lemma LinkNoLead(m: seq<Descr>, n1: seq<Descr>, W: World, T: Tables, P: set<int>, chains: seq<seq<int>>, u: int)
    requires MarkedOk(m, W, T, P, chains) && Headed(m, n1, W) && Chained(n1, W, T.oblist, chains)
    requires LinkAmong(T.oblist, chains, |chains|, u)
    ensures !Leads(m, W, u)
  {
    hide Followed, IsChain, Apart, Permanent, Scratch, SlotIn;
    var l :| 0 <= l < |chains| && LinkOf(T.oblist + l, chains[l], u);
    if u in W.dyn {
      NoLinkIsTitle(m, n1, W, T.oblist, chains, l, u);
    } else if u < W.lo {
      LowLink(n1, W, T.oblist, chains, u);
      assert InBins(T, u);
    }
  }

  /** No link is a descriptor that will be relocated. */
  lemma SlotNoLink(m: seq<Descr>, n1: seq<Descr>, W: World, T: Tables, P: set<int>, chains: seq<seq<int>>, x: int)
    requires MarkedOk(m, W, T, P, chains) && Forwarded(m, n1, W, |W.dyn|) && Chained(n1, W, T.oblist, chains)
    requires 0 <= x < |m| && SlotIn(m, MarkedTo(m, W, |W.dyn|) + P, x)
    ensures !LinkAmong(T.oblist, chains, |chains|, x) && x !in W.dyn
  {
    hide IsChain, Apart, Scratch, TargetOk, PtrOk, Chained, Forwarded, LinkAmong;
    var t := TopOf(m, x);
    if t in P {
      PermanentSlot(m, W, T, P, chains, t, x);
      if LinkAmong(T.oblist, chains, |chains|, x) {
        LowLink(n1, W, T.oblist, chains, x);
      }
    } else {
      var i :| 0 <= i < |W.dyn| && Stays(m, W, i) && W.dyn[i] == t;
      InRegion(m, W, i);
      if LinkAmong(T.oblist, chains, |chains|, x) {
        LinkPlace(m, n1, W, T.oblist, chains, i, x);
      }
      if x in W.dyn {
        InsideOnly(m, W, i, x, x);
      }
    }
  }

  lemma PermanentSlot(m: seq<Descr>, W: World, T: Tables, P: set<int>, chains: seq<seq<int>>, t: int, x: int)
    requires MarkedOk(m, W, T, P, chains) && t in P && SlotOf(m, t, x)
    ensures 0 < x < W.lo && x !in W.dyn
  {
    if x in W.dyn {
      DynTitle(m, W, x);
    }
  }

  lemma PermanentListed(m: seq<Descr>, W: World, T: Tables, P: set<int>, chains: seq<seq<int>>)
    requires MarkedOk(m, W, T, P, chains)
    ensures forall p :: p in P ==> 0 < p < W.lo && p < |m| && p + Traced(m[p]) < W.lo && Traced(m[p]) > 0 && !m[p].sttl
    ensures P !! MarkedTo(m, W, |W.dyn|)
  {
    hide Followed, Chained, Placed, Scratch;
    forall p | p in P
      ensures p !in W.dyn
    {
      if p in W.dyn {
        DynTitle(m, W, p);
      }
    }
  }

  lemma RelinkedRelocatable(m: seq<Descr>, n1: seq<Descr>, n2: seq<Descr>, W: World, T: Tables, P: set<int>, chains: seq<seq<int>>)
    requires MarkedOk(m, W, T, P, chains) && Forwarded(m, n1, W, |W.dyn|) && Chained(n1, W, T.oblist, chains)
    requires Relinked(m, n1, n2, W, T.oblist, chains, |chains|) && Heads(m, n2, W)
    ensures Relocatable(m, n2, W, P)
  {
    hide Bases, Chained, Followed, Forwarded, Heads, Homed, LinkAmong, MarkedTo, Permanent, Placed, Relinked,
      Scratch, SlotIn, Stays, Tiled, Traced;
    HeadsParts(m, n2, W);
    PermanentListed(m, W, T, P, chains);
    forall x | 0 <= x < |m| && SlotIn(m, MarkedTo(m, W, |W.dyn|) + P, x)
      ensures n2[x] == m[x]
    {
      SlotNoLink(m, n1, W, T, P, chains, x);
      CellForwarded(m, n1, W, x);
      LinkChange(m, n1, n2, W, T.oblist, chains, x);
    }
    assert Tiled(m, W) && (forall p :: p in P ==> Followed(m, W, p))
           && (forall i :: 0 <= i < |W.dyn| && Stays(m, W, i) ==> Followed(m, W, W.dyn[i])) by {
    }
  }

  lemma CellForwarded(m: seq<Descr>, n1: seq<Descr>, W: World, x: int)
    requires Forwarded(m, n1, W, |W.dyn|) && 0 <= x < |m| && x !in W.dyn
    ensures |n1| == |m| && n1[x] == m[x]
  {
  }

  lemma RelinkedTable(m: seq<Descr>, n1: seq<Descr>, n2: seq<Descr>, W: World, T: Tables, P: set<int>, chains: seq<seq<int>>)
    requires MarkedOk(m, W, T, P, chains) && Forwarded(m, n1, W, |W.dyn|) && Chained(n1, W, T.oblist, chains)
    requires Relinked(m, n1, n2, W, T.oblist, chains, |chains|)
    ensures ListedOnce(m, n2, W, P, T.prmptr, T.prmdx) && P == Listed(m, T.prmptr, 0, T.prmdx)
  {
    hide Chained, Scratch, Permanent, Followed, SlotIn;
    assert |n2| == |m|;
    PermanentListed(m, W, T, P, chains);
    forall x | T.prmptr < x <= T.prmptr + T.prmdx
      ensures n2[x].a == m[x].a
    {
      assert InTable(T, x);
      if x in W.dyn {
        DynTitle(m, W, x);
      }
      CellForwarded(m, n1, W, x);
      LinkChange(m, n1, n2, W, T.oblist, chains, x);
      if n2[x] != n1[x] {
        LowLink(n1, W, T.oblist, chains, x);
      }
    }
    assert forall x :: T.prmptr < x <= T.prmptr + T.prmdx ==> InTable(T, x);
  }

  // ------------------------------------------------------------ all together

  /** What a collection makes of the memory m in which the live blocks are
      marked. */
  ghost predicate Collected(m: seq<Descr>, m': seq<Descr>, W: World, P: set<int>, oblist: int, chains: seq<seq<int>>) {
    && |m'| == |m|
    && (forall i :: 0 <= i < |W.dyn| && Stays(m, W, i) ==> BlockMoved(m, m', W, i, Room(m, W, i), false))
    && (forall x :: 0 <= x < W.lo && x < |m| ==> LowCell(m, m', W, P, oblist, |chains|, x))
    && (forall l :: 0 <= l < |chains| ==> ChainMoved(m, m', W, oblist + l, chains[l]))
  }

  ghost predicate ChainMoved(m: seq<Descr>, m': seq<Descr>, W: World, bin: int, c: seq<int>) {
    forall j :: 0 <= j <= |c| ==> LinkMoved(m, m', W, bin, c, j)
  }

  lemma CollectedNow(m: seq<Descr>, n1: seq<Descr>, n2: seq<Descr>, n3: seq<Descr>, n4: seq<Descr>, W: World, T: Tables,
                     P: set<int>, chains: seq<seq<int>>)
    requires MarkedOk(m, W, T, P, chains) && Prepared(m, n1, n2, n3, W, P, T.oblist, chains)
    requires Slid(m, n3, n4, W, |W.dyn|)
    ensures Collected(m, n4, W, P, T.oblist, chains)
  {
    hide MarkedOk, Prepared, BlockMoved, LowCell, SlidAt, LinkMoved, SlotIn;
    forall i | 0 <= i < |W.dyn| && Stays(m, W, i)
      ensures BlockMoved(m, n4, W, i, Room(m, W, i), false)
    {
      BlockPrepared(m, n1, n2, n3, W, P, T.oblist, chains, i);
      BlockSlid(m, n3, n4, W, i);
    }
    forall x | 0 <= x < W.lo && x < |m|
      ensures LowCell(m, n4, W, P, T.oblist, |chains|, x)
    {
      LowPrepared(m, n1, n2, n3, W, P, T.oblist, chains, x);
      assert n4[x] == n4[..W.lo][x] && n3[x] == n3[..W.lo][x];
      LowCellSame(m, n3, n4, W, P, T.oblist, |chains|, x);
    }
    forall l | 0 <= l < |chains|
      ensures ChainMoved(m, n4, W, T.oblist + l, chains[l])
    {
      ChainMovedNow(m, n1, n2, n3, n4, W, T, P, chains, l);
    }
  }

  lemma LowCellSame(m: seq<Descr>, n3: seq<Descr>, n4: seq<Descr>, W: World, P: set<int>, oblist: int, obsiz: int, x: int)
    requires 0 <= x < |m| == |n3| == |n4| && n4[x] == n3[x] && LowCell(m, n3, W, P, oblist, obsiz, x)
    ensures LowCell(m, n4, W, P, oblist, obsiz, x)
  {
  }

  lemma ChainMovedNow(m: seq<Descr>, n1: seq<Descr>, n2: seq<Descr>, n3: seq<Descr>, n4: seq<Descr>, W: World, T: Tables,
                      P: set<int>, chains: seq<seq<int>>, l: int)
    requires MarkedOk(m, W, T, P, chains) && Prepared(m, n1, n2, n3, W, P, T.oblist, chains)
    requires Slid(m, n3, n4, W, |W.dyn|) && 0 <= l < |chains|
    ensures ChainMoved(m, n4, W, T.oblist + l, chains[l])
  {
    hide Alive, Bases, Chained, Followed, FwdAt, Heads, Homed, InTable, LinkCell, MarkedTo, NewHome, NextKept,
      Permanent, Relinked, Relocatable, Relocated, Scratch, Slid, SlotIn, Stays, Tiled, Traced;
    var bin, c := T.oblist + l, chains[l];
    assert InBins(T, T.oblist + l + LNKFLD) && 0 <= T.oblist + l + LNKFLD < |m| && !SlotIn(m, P, T.oblist + l + LNKFLD) by {
    }
    assert Tiled(m, W) && Headed(m, n1, W) && Chained(n1, W, T.oblist, chains) by {
    }
    forall j | 0 <= j <= |c|
      ensures LinkMoved(m, n4, W, bin, c, j)
    {
      if j == 0 || Alive(m, c[j - 1]) {
        LinkPrepared(m, n1, n2, n3, W, P, T.oblist, chains, l, j);
        LinkSlid(m, n1, n3, n4, W, T.oblist, chains, l, j);
      } else {
        assert LinkMoved(m, n4, W, bin, c, j);
      }
    }
  }

  lemma SoundParts(m0: seq<Descr>, W: World, T: Tables, chains: seq<seq<int>>)
    requires Sound(m0, W, T, chains)
    ensures BaseOk(m0, W, Bases(m0, T), T.gcblk)
    ensures 0 < T.prmptr && 0 < T.prmdx && T.prmptr + T.prmdx < W.lo <= |m0| && 0 < T.obsiz == |chains|
    ensures Bases(m0, T) == Listed(m0, T.prmptr, 0, T.prmdx)
    ensures forall t :: t in W.dyn && 0 < t < |m0| ==> !m0[t].mark
    ensures forall k :: 0 <= k < T.obsiz ==> IsChain(m0, W, T.oblist + k, chains[k])
    ensures !(T.oblist + LNKFLD <= T.gcblk + 1 < T.oblist + LNKFLD + T.obsiz)
  {
    hide BaseOk, SlotIn, IsChain, Apart;
    assert InBins(T, T.gcblk + 1) ==> false;
  }

  lemma MarkedOkParts(m: seq<Descr>, W: World, T: Tables, P: set<int>, chains: seq<seq<int>>)
    requires MarkedOk(m, W, T, P, chains)
    ensures Tiled(m, W) && Homed(m, W) && Chained(m, W, T.oblist, chains) && |chains| == T.obsiz > 0
    ensures P == Bases(m, T) && 0 < T.prmptr && 0 < T.prmdx && T.prmptr + T.prmdx < |m|
  {
  }

  lemma PreparedNow(m: seq<Descr>, n1: seq<Descr>, n2: seq<Descr>, n3: seq<Descr>, W: World, T: Tables, P: set<int>, chains: seq<seq<int>>)
    requires MarkedOk(m, W, T, P, chains) && Forwarded(m, n1, W, |W.dyn|) && Chained(n1, W, T.oblist, chains)
    requires Relinked(m, n1, n2, W, T.oblist, chains, |chains|) && Relocatable(m, n2, W, P)
    requires Relocated(m, n2, n3, W, MarkedTo(m, W, |W.dyn|) + P) && Heads(m, n3, W)
    ensures Prepared(m, n1, n2, n3, W, P, T.oblist, chains)
  {
    hide Chained, Forwarded, Heads, MarkedOk, MarkedTo, Relinked, Relocatable, Relocated, Traced;
    PermanentListed(m, W, T, P, chains);
  }
}
