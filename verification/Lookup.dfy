/** Looking a string up: the two registers that walk along a chain, and what
    becomes of them when a collection comes between the search and the
    insertion. */
module Lookup {
  import opened Heap
  import opened Marking
  import opened Roots
  import opened Forwarding
  import opened Relinking
  import opened Relocation
  import opened Compaction
  import opened Soundness
  import opened Survival
  import opened Growth
  import opened Interning
  import opened Insertion

  /** The registers LSTPTR and BUKPTR. */
  datatype Registers = Registers(lst: int, buk: int)

  /** A register that points to a string or to a bin. */
  function Pointer(a: int): Descr {
    Descr(a, 1, false, false, false, true, 0, "")
  }

  /** The bins lie in a permanent block of their own. */
  ghost predicate BinBlock(m: seq<Descr>, W: World, T: Tables) {
    && T.oblist - 1 in W.perm && 0 < T.oblist - 1 < |m|
    && T.oblist + LNKFLD + T.obsiz - 1 <= T.oblist - 1 + m[T.oblist - 1].v
  }

  /** The table of strings is in order, and so is what surrounds it. */
  ghost predicate TableOk(m: seq<Descr>, W: World, T: Tables, h: Hash, chains: seq<seq<int>>, R: Registers) {
    && Sound(m, W, T, chains) && Interned(m, h, chains) && BinBlock(m, W, T)
    && Register(m, W, T, R.lst) && Register(m, W, T, R.buk) && R.lst != R.buk
  }

  /** Where the walk is before place i: at the bin, or at a string. */
  function At(T: Tables, k: int, c: seq<int>, i: int): int
    requires 0 <= i <= |c|
  {
    if i == 0 then T.oblist + k else c[i - 1]
  }

  /** The string at place i, or none. */
  function Here(c: seq<int>, i: int): int
    requires 0 <= i <= |c|
  {
    if i < |c| then c[i] else 0
  }

  /** Nothing but the two registers differs. */
  ghost predicate OnlyRegisters(m0: seq<Descr>, m: seq<Descr>, R: Registers) {
    |m| == |m0| && forall x :: 0 <= x < |m| && x != R.lst && x != R.buk ==> m[x] == m0[x]
  }

  ghost predicate Passed(m: seq<Descr>, h: Hash, c: seq<int>, i: int, s: string) {
    0 <= i <= |c| && forall j :: 0 <= j < i ==> Precedes(m, h, c[j], s)
  }

  // ---------------------------------------------------------------- the walk

  lemma PointerAt(m: seq<Descr>, W: World, T: Tables, h: Hash, chains: seq<seq<int>>, R: Registers, k: int, i: int)
    requires TableOk(m, W, T, h, chains, R) && 0 <= k < |chains| && 0 <= i <= |chains[k]|
    ensures PtrOk(m, W, Pointer(At(T, k, chains[k], i))) && PtrOk(m, W, Pointer(Here(chains[k], i)))
    ensures 0 < R.lst < |m| && 0 < R.buk < |m| && R.lst != R.buk
  {
    hide Sound, Interned, Placed, Scratch, BlockOk, Chained;
    SoundBase(m, W, T, chains);
    if i == 0 {
      BinPointer(m, W, T, k);
    } else {
      InChain(m, W, T.oblist, chains, k, i - 1);
      StringPointer(m, W, chains[k][i - 1]);
    }
    if i < |chains[k]| {
      InChain(m, W, T.oblist, chains, k, i);
      StringPointer(m, W, chains[k][i]);
    }
  }

  lemma BinPointer(m: seq<Descr>, W: World, T: Tables, k: int)
    requires BinBlock(m, W, T) && Permanent(m, W) && 0 <= k < T.obsiz
    ensures 0 < T.oblist + k < |m| && TopOf(m, T.oblist + k) == T.oblist - 1
    ensures PtrOk(m, W, Pointer(T.oblist + k))
  {
    TopInBlock(m, T.oblist - 1, T.oblist + k);
  }

  lemma StringPointer(m: seq<Descr>, W: World, t: int)
    requires Tiled(m, W) && ChainString(m, W, t)
    ensures TopOf(m, t) == t && PtrOk(m, W, Pointer(t))
  {
    var i := StringBlock(m, W, t);
    TopInBlock(m, t, t);
  }

  /** Setting one of the two registers. */
  lemma SetTable(m: seq<Descr>, W: World, T: Tables, h: Hash, chains: seq<seq<int>>, R: Registers, x: int, a: int)
    requires TableOk(m, W, T, h, chains, R) && (x == R.lst || x == R.buk) && PtrOk(m, W, Pointer(a))
    ensures 0 < x < |m| && TableOk(m[x := Pointer(a)], W, T, h, chains, R)
  {
    hide Bases, BinBlock, InBins, InTable, Interned, PtrOk, SlotIn, Sound;
    RegisterPlace(m, W, T, chains, x);
    assert 0 < x < |m|;
    SetSound(m, W, T, chains, x, Pointer(a));
    SetInterned(m, W, T, chains, h, x, Pointer(a));
    SetBins(m, W, T, chains, x, Pointer(a));
  }

  lemma SetBins(m: seq<Descr>, W: World, T: Tables, chains: seq<seq<int>>, x: int, d: Descr)
    requires Sound(m, W, T, chains) && BinBlock(m, W, T) && 0 <= x < |m| && !m[x].ttl
    ensures BinBlock(m[x := d], W, T)
  {
    hide Sound, Tiled, Chained, Placed, Scratch, BlockOk;
    SoundBase(m, W, T, chains);
  }

  lemma SetPassed(m: seq<Descr>, W: World, T: Tables, h: Hash, chains: seq<seq<int>>, R: Registers, k: int, i: int, s: string,
                  x: int, d: Descr)
    requires TableOk(m, W, T, h, chains, R) && 0 <= k < |chains| && Passed(m, h, chains[k], i, s)
    requires x == R.lst || x == R.buk
    ensures 0 < x < |m| && Passed(m[x := d], h, chains[k], i, s)
  {
    hide Sound, Interned, Text, Order, Tiled, Permanent, Placed;
    RegisterPlace(m, W, T, chains, x);
    SoundBase(m, W, T, chains);
    forall j | 0 <= j < i
      ensures Precedes(m[x := d], h, chains[k][j], s)
    {
      assert Precedes(m, h, chains[k][j], s);
      InChain(m, W, T.oblist, chains, k, j);
      SetString(m, W, x, d, chains[k][j]);
    }
  }

  /** What the walk reads at place i. */
  lemma Look(m: seq<Descr>, W: World, T: Tables, h: Hash, chains: seq<seq<int>>, R: Registers, k: int, i: int)
    requires TableOk(m, W, T, h, chains, R) && 0 <= k < |chains| && 0 <= i <= |chains[k]|
    ensures var c := chains[k];
            && 0 < At(T, k, c, i) + LNKFLD < |m| && m[At(T, k, c, i) + LNKFLD].a == Here(c, i)
            && (i < |c| ==> 0 < c[i] < c[i] + LNKFLD < |m| && Order(m, c[i]) == m[c[i] + LNKFLD].v
                            && m[c[i]].v >= 1 && c[i] + LNKFLD + 1 + (m[c[i]].v - 1) / CPD < |m|)
  {
    hide Sound, Interned, Register, Permanent, Placed, BinBlock, Scratch, BlockOk;
    SoundBase(m, W, T, chains);
    assert IsChain(m, W, T.oblist + k, chains[k]);
    assert LinkAt(m, T.oblist + k, chains[k], i);
    if i < |chains[k]| {
      var j := StringBlock(m, W, chains[k][i]);
      CharPlace(m[chains[k][i]], m[chains[k][i]].v - 1);
    }
  }

  /** Where the i-th character is. */
  lemma CharAt(m: seq<Descr>, t: int, i: int)
    requires 0 <= t < |m| && 0 <= i < m[t].v && t + LNKFLD + 1 + (m[t].v - 1) / CPD < |m|
    ensures |Text(m, t)| == m[t].v
    ensures 0 <= t + LNKFLD + 1 + i / CPD < |m| && 0 <= i % CPD
    ensures Text(m, t)[i] == CharOf(m[t + LNKFLD + 1 + i / CPD], i % CPD)
  {
  }

  /** Equal strings have equal numbers. */
  lemma OtherNumber(m: seq<Descr>, h: Hash, chains: seq<seq<int>>, k: int, i: int, s: string)
    requires Interned(m, h, chains) && 0 <= k < |chains| && 0 <= i < |chains[k]| && Order(m, chains[k][i]) != h.ord(s)
    ensures Text(m, chains[k][i]) != s
  {
    hide Text, Order;
    assert Filing(m, h, k, chains[k]);
    assert Filed(m, h, k, chains[k][i]);
  }

  lemma StopHere(m: seq<Descr>, h: Hash, c: seq<int>, i: int, s: string)
    requires Passed(m, h, c, i, s) && (i < |c| ==> Order(m, c[i]) > h.ord(s))
    ensures Between(m, h, c, i, s)
  {
  }

  lemma PassOn(m: seq<Descr>, h: Hash, c: seq<int>, i: int, s: string)
    requires Passed(m, h, c, i, s) && i < |c| && Precedes(m, h, c[i], s)
    ensures Passed(m, h, c, i + 1, s)
  {
  }

  lemma NothingPassed(m: seq<Descr>, h: Hash, c: seq<int>, s: string)
    ensures Passed(m, h, c, 0, s)
  {
  }

  // ------------------------------------------------ a collection in the middle

  /** Where place i of a chain is after the strings that go are taken out. */
  ghost function NewPlace(m: seq<Descr>, W: World, c: seq<int>, i: int): (p: int)
    requires 0 <= i <= |c|
  {
    |NewChain(m, W, c, 0)| - |NewChain(m, W, c, i)|
  }

  lemma {:induction false} TailOf(m: seq<Descr>, W: World, c: seq<int>, i: int)
    requires 0 <= i <= |c|
    ensures 0 <= NewPlace(m, W, c, i) && NewChain(m, W, c, 0)[NewPlace(m, W, c, i)..] == NewChain(m, W, c, i)
    ensures i > 0 ==> NewPlace(m, W, c, i) == NewPlace(m, W, c, i - 1) + if Alive(m, c[i - 1]) then 1 else 0
    decreases i
  {
    hide NewHome;
    if i > 0 {
      TailOf(m, W, c, i - 1);
      var all, p := NewChain(m, W, c, 0), NewPlace(m, W, c, i - 1);
      if Alive(m, c[i - 1]) {
        assert all[p + 1..] == all[p..][1..];
      }
    }
  }

  /** The neighbours of place i, if they stay, are the neighbours of its new
      place. */
  lemma Neighbours(m: seq<Descr>, W: World, c: seq<int>, i: int)
    requires 0 <= i <= |c| && (i > 0 ==> Alive(m, c[i - 1])) && (i < |c| ==> Alive(m, c[i]))
    ensures var nc, p := NewChain(m, W, c, 0), NewPlace(m, W, c, i);
            && 0 <= p <= |nc| && (p == 0 <==> i == 0) && (p == |nc| <==> i == |c|)
            && (i > 0 ==> nc[p - 1] == NewHome(m, W, c[i - 1]))
            && (i < |c| ==> nc[p] == NewHome(m, W, c[i]))
  {
    hide NewHome, Alive, NewChain;
    var nc, p := NewChain(m, W, c, 0), NewPlace(m, W, c, i);
    TailOf(m, W, c, i);
    if i == |c| {
      EndOf(m, W, c);
    }
    assert |nc[p..]| == |NewChain(m, W, c, i)|;
    if i > 0 {
      TailOf(m, W, c, i - 1);
      HeadOf(m, W, c, i - 1);
      assert nc[p - 1] == nc[p - 1..][0];
    }
    if i < |c| {
      HeadOf(m, W, c, i);
      assert nc[p] == nc[p..][0];
    }
  }

  lemma EndOf(m: seq<Descr>, W: World, c: seq<int>)
    ensures NewChain(m, W, c, |c|) == []
  {
  }

  lemma HeadOf(m: seq<Descr>, W: World, c: seq<int>, i: int)
    requires 0 <= i < |c| && Alive(m, c[i])
    ensures NewChain(m, W, c, i) != [] && NewChain(m, W, c, i)[0] == NewHome(m, W, c[i])
  {
    hide NewHome;
  }

  lemma {:induction false} PlaceBefore(m: seq<Descr>, W: World, c: seq<int>, k: int, i: int, j: int)
    requires 0 <= k <= i <= |c| && 0 <= j < |NewChain(m, W, c, k)| - |NewChain(m, W, c, i)|
    ensures Place(m, W, c, k, j) < i
    decreases |c| - k
  {
    if k < i {
      if Alive(m, c[k]) {
        if j > 0 {
          PlaceBefore(m, W, c, k + 1, i, j - 1);
        }
      } else {
        PlaceBefore(m, W, c, k + 1, i, j);
      }
    }
  }

  /** The walk's two registers are roots. */
  lemma RegisterAlive(m: seq<Descr>, W: World, T: Tables, P: set<int>, chains: seq<seq<int>>, x: int, t: int)
    requires MarkedOk(m, W, T, P, chains) && 0 < x < |m| && SlotIn(m, P, x) && m[x] == Pointer(t) && t in W.dyn
    ensures Alive(m, t) && TopOf(m, t) == t
  {
    hide Chained, Placed, Scratch, Permanent;
    assert Followed(m, W, TopOf(m, x));
    assert TargetOk(m, W, m[x]);
    DynTitle(m, W, t);
    TopInBlock(m, t, t);
  }

  lemma RegeneratedParts(m0: seq<Descr>, W: World, m: seq<Descr>, m1: seq<Descr>, W1: World, T: Tables,
                         chains: seq<seq<int>>, chains1: seq<seq<int>>)
    requires Regenerated(m0, W, m, m1, W1, T, chains, chains1)
    ensures MarkedOk(m, W, T, Bases(m0, T), chains) && Collected(m, m1, W, Bases(m0, T), T.oblist, chains)
    ensures |m| == |m0| == |m1| && W1 == NewWorld(m, W) && chains1 == NewChains(m, W, chains)
  {
  }

  /** The place of a string is its new place after the collection. */
  lemma BetweenAgain(m0: seq<Descr>, W: World, m: seq<Descr>, m1: seq<Descr>, W1: World, T: Tables,
                     chains: seq<seq<int>>, chains1: seq<seq<int>>, h: Hash, k: int, i: int, s: string)
    requires Regenerated(m0, W, m, m1, W1, T, chains, chains1) && Sound(m0, W, T, chains) && 0 <= k < |chains|
    requires Between(m0, h, chains[k], i, s) && (i > 0 ==> Alive(m, chains[k][i - 1]))
    requires i < |chains[k]| ==> Alive(m, chains[k][i])
    ensures Between(m1, h, NewChain(m, W, chains[k], 0), NewPlace(m, W, chains[k], i), s)
  {
    hide Alive, NewChain, NewHome, Order, Place, Regenerated, Sound, Text;
    var c, nc, p := chains[k], NewChain(m, W, chains[k], 0), NewPlace(m, W, chains[k], i);
    Neighbours(m, W, c, i);
    forall j | 0 <= j < p
      ensures Precedes(m1, h, nc[j], s)
    {
      var q := Place(m, W, c, 0, j);
      assert q < i by {
        PlaceBefore(m, W, c, 0, i, j);
      }
      PlaceIs(m, W, c, j);
      StringAgain(m0, W, m, m1, W1, T, chains, chains1, k, q);
      assert Precedes(m0, h, c[q], s);
    }
    if i < |c| {
      StringAgain(m0, W, m, m1, W1, T, chains, chains1, k, i);
    }
  }

  lemma PlaceIs(m: seq<Descr>, W: World, c: seq<int>, j: int)
    requires 0 <= j < |NewChain(m, W, c, 0)|
    ensures var q := Place(m, W, c, 0, j); 0 <= q < |c| && Alive(m, c[q]) && NewChain(m, W, c, 0)[j] == NewHome(m, W, c[q])
  {
  }

  /** A register that points to a bin or to the title of a string keeps doing so. */
  lemma RegisterAgain(m0: seq<Descr>, W: World, m: seq<Descr>, m1: seq<Descr>, W1: World, T: Tables,
                      chains: seq<seq<int>>, chains1: seq<seq<int>>, x: int, a: int)
    requires Regenerated(m0, W, m, m1, W1, T, chains, chains1) && Sound(m0, W, T, chains)
    requires Register(m0, W, T, x) && m0[x] == Pointer(a)
    ensures |m1| == |m0| == |m| && Register(m1, W1, T, x)
    ensures a == 0 ==> m1[x] == Pointer(0)
    ensures a in W.dyn ==> Alive(m, a) && m1[x] == Pointer(NewHome(m, W, a))
    ensures BinBlock(m0, W, T) && T.oblist <= a < T.oblist + T.obsiz ==> m1[x] == Pointer(a)
  {
    hide BaseOk, Bases, BlockOk, Chained, Collected, Homed, InBins, InTable, IsChain, KeptOn, Listed, LiveMarked,
      MarkedOk, NewChains, NewHome, NewWorld, Permanent, Placed, PtrOk, Scratch, SlotOf, Sound, Tiled, TopOf;
    var P := Bases(m0, T);
    RegeneratedParts(m0, W, m, m1, W1, T, chains, chains1);
    SoundBase(m0, W, T, chains);
    SoundParts(m0, W, T, chains);
    RegisterPlace(m0, W, T, chains, x);
    ListedKept(m0, W, m, m1, W1, T, chains, chains1, TopOf(m0, x), x);
    assert SlotIn(m, P, x) by { MarkedSlot(m0, W, m, T, P, KeptOn(m0, chains, |chains|), chains, x); }
    LowSame(m, m1, W, T, P, chains, x);
    PlacedAgain(m, m1, W, T, P, chains);
    if a in W.dyn {
      RegisterAlive(m, W, T, P, chains, x, a);
      assert a > 0;
    }
    if BinBlock(m0, W, T) && T.oblist <= a < T.oblist + T.obsiz {
      assert a > 0;
      MarkedBins(m0, W, m, T, P, chains, chains1, m1, W1);
      MarkedOkPermanent(m, W, T, P, chains);
      BinPointer(m, W, T, a - T.oblist);
      BinHome(m, W, T, P, chains);
    }
  }

  /** A register stays a register, whatever it holds. */
  lemma RegisterKept(m0: seq<Descr>, W: World, m: seq<Descr>, m1: seq<Descr>, W1: World, T: Tables,
                     chains: seq<seq<int>>, chains1: seq<seq<int>>, x: int)
    requires Regenerated(m0, W, m, m1, W1, T, chains, chains1) && Sound(m0, W, T, chains) && Register(m0, W, T, x)
    ensures |m1| == |m0| == |m| && Register(m1, W1, T, x)
  {
    hide BaseOk, Bases, BlockOk, Chained, Collected, Homed, InBins, InTable, IsChain, KeptOn, Listed, LiveMarked,
      MarkedOk, NewChains, NewHome, NewWorld, Permanent, Placed, PtrOk, Scratch, SlotOf, Sound, Tiled, TopOf;
    var P := Bases(m0, T);
    RegeneratedParts(m0, W, m, m1, W1, T, chains, chains1);
    SoundBase(m0, W, T, chains);
    RegisterPlace(m0, W, T, chains, x);
    assert SlotIn(m, P, x) by { MarkedSlot(m0, W, m, T, P, KeptOn(m0, chains, |chains|), chains, x); }
    LowSame(m, m1, W, T, P, chains, x);
    PlacedAgain(m, m1, W, T, P, chains);
  }

  lemma MarkedOkPermanent(m: seq<Descr>, W: World, T: Tables, P: set<int>, chains: seq<seq<int>>)
    requires MarkedOk(m, W, T, P, chains)
    ensures Permanent(m, W) && Tiled(m, W)
  {
  }

  lemma BinHome(m: seq<Descr>, W: World, T: Tables, P: set<int>, chains: seq<seq<int>>)
    requires MarkedOk(m, W, T, P, chains) && BinBlock(m, W, T)
    ensures NewHome(m, W, T.oblist - 1) == T.oblist - 1
  {
    hide Chained, Placed, Followed, Scratch;
    if T.oblist - 1 in W.dyn {
      DynTitle(m, W, T.oblist - 1);
    }
    HomeStays(m, W, T.oblist - 1);
  }

  lemma MarkedSlot(m0: seq<Descr>, W: World, m: seq<Descr>, T: Tables, P: set<int>, K: set<int>, chains: seq<seq<int>>, x: int)
    requires Sound(m0, W, T, chains) && P == Bases(m0, T) && MarkedOk(m, W, T, P, chains) && LiveMarked(m0, m, W, T, K)
    requires 0 < x < W.lo && SlotIn(m0, P, x)
    ensures |m| == |m0| && SlotIn(m, P, x)
  {
    hide Chained, Placed, Followed, PtrOk, Live, Homed;
    forall t | t in W.dyn
      ensures W.lo <= t
    {
      DynTitle(m, W, t);
    }
    forall i | 0 <= i < W.lo
      ensures m[i].ttl == m0[i].ttl
    {
    }
    TopLow(m0, m, W.lo, x);
    assert m[TopOf(m0, x)] == m0[TopOf(m0, x)];
  }

  lemma MarkedBins(m0: seq<Descr>, W: World, m: seq<Descr>, T: Tables, P: set<int>, chains: seq<seq<int>>,
                   chains1: seq<seq<int>>, m1: seq<Descr>, W1: World)
    requires Regenerated(m0, W, m, m1, W1, T, chains, chains1) && Sound(m0, W, T, chains) && BinBlock(m0, W, T)
    ensures BinBlock(m, W, T) && BinBlock(m1, W1, T)
  {
    hide Chained, Placed, Followed, Live, Homed, BlockMoved, ChainMoved, LowCell, NewDyn, NewChains, BlockOk;
    var t := T.oblist - 1;
    SoundBase(m0, W, T, chains);
    TitleStays(m, m1, W, T, Bases(m0, T), chains, t);
    if t in W.dyn {
      DynTitle(m, W, t);
    }
    assert t != T.gcblk + 1;
  }

  /** A collection leaves the table of strings and its surroundings in order. */
  lemma TableAgain(m0: seq<Descr>, W: World, m: seq<Descr>, m1: seq<Descr>, W1: World, T: Tables,
                   chains: seq<seq<int>>, chains1: seq<seq<int>>, h: Hash, R: Registers)
    requires Regenerated(m0, W, m, m1, W1, T, chains, chains1) && TableOk(m0, W, T, h, chains, R)
    ensures TableOk(m1, W1, T, h, chains1, R)
  {
    hide Alive, Bases, BinBlock, Collected, Interned, MarkedOk, NewChains, NewHome, NewWorld, Pointer, Regenerated,
      SlotIn, Sound;
    RegeneratedParts(m0, W, m, m1, W1, T, chains, chains1);
    SoundAgain(m, m1, W, T, Bases(m0, T), chains);
    InternedAgain(m0, W, m, m1, W1, T, chains, chains1, h);
    MarkedBins(m0, W, m, T, Bases(m0, T), chains, chains1, m1, W1);
    RegisterKept(m0, W, m, m1, W1, T, chains, chains1, R.lst);
    RegisterKept(m0, W, m, m1, W1, T, chains, chains1, R.buk);
  }

  // ------------------------------------------------------------ the insertion

  lemma AddedRegister(m: seq<Descr>, n: seq<Descr>, W: World, T: Tables, chains: seq<seq<int>>, x: int)
    requires Sound(m, W, T, chains) && Added(m, n, W) && Register(m, W, T, x)
    ensures Register(n, Longer(W, BkSize(n[W.hi])), T, x)
  {
    hide Sound, Added, Placed, Chained, Scratch, BlockOk, Bases;
    var P := Bases(m, T);
    SoundBase(m, W, T, chains);
    RegisterPlace(m, W, T, chains, x);
    SoundRegion(m, W, T, chains);
    AddedRange(m, n, W);
    AddedSound(m, n, W, T, chains);
    SameBelow(m, n, W, x);
    SameBelow(m, n, W, TopOf(m, x));
    SlotSame(m, n, P, x);
  }

  lemma LinkSetRegister(n: seq<Descr>, r: seq<Descr>, W: World, T: Tables, x: int, a: int, y: int)
    requires LinkSet(n, r, x, a) && Register(n, W, T, y) && Bases(r, T) == Bases(n, T)
    ensures Register(r, W, T, y)
  {
    LinkSetTop(n, r, x, a, y);
    LinkSetSlot(n, r, Bases(n, T), x, a, y);
  }

  lemma AddedBins(m: seq<Descr>, n: seq<Descr>, W: World, T: Tables, chains: seq<seq<int>>)
    requires Sound(m, W, T, chains) && Added(m, n, W) && BinBlock(m, W, T)
    ensures BinBlock(n, Longer(W, BkSize(n[W.hi])), T)
  {
    hide Sound, Added, Placed, Chained, Scratch, BlockOk, Bases;
    SoundBase(m, W, T, chains);
    SoundRegion(m, W, T, chains);
    AddedRange(m, n, W);
    SameBelow(m, n, W, T.oblist - 1);
  }

  /** A value stored in a block leaves the table of strings and its surroundings
      in order. */
  lemma TableStored(m: seq<Descr>, W: World, T: Tables, h: Hash, chains: seq<seq<int>>, R: Registers, i: int, x: int, d: Descr)
    requires TableOk(m, W, T, h, chains, R) && FollowedIn(m, W, i, x) && !d.ttl && PtrOk(m, W, d)
    ensures 0 <= x < |m| && TableOk(m[x := d], W, T, h, chains, R)
  {
    hide Sound, Interned, BinBlock, Register, FollowedIn, PtrOk, Tiled;
    SoundBase(m, W, T, chains);
    InRange(m, W, i, x);
    FollowedPlace(m, W, i, x);
    StoreSound(m, W, T, chains, i, x, d);
    StoreInterned(m, W, T, chains, h, i, x, d);
    SetBins(m, W, T, chains, x, d);
  }

  /** A new block leaves the table of strings and its surroundings in order. */
  lemma TableAdded(m: seq<Descr>, n: seq<Descr>, W: World, T: Tables, h: Hash, chains: seq<seq<int>>, R: Registers)
    requires TableOk(m, W, T, h, chains, R) && Added(m, n, W)
    ensures TableOk(n, Longer(W, BkSize(n[W.hi])), T, h, chains, R)
  {
    hide Sound, Interned, BinBlock, Register, Added, BkSize, Longer;
    AddedSound(m, n, W, T, chains);
    AddedInterned(m, n, W, T, chains, h);
    AddedBins(m, n, W, T, chains);
    AddedRegister(m, n, W, T, chains, R.lst);
    AddedRegister(m, n, W, T, chains, R.buk);
  }

  lemma LinkSetBins(n: seq<Descr>, r: seq<Descr>, W: World, T: Tables, x: int, a: int)
    requires LinkSet(n, r, x, a) && BinBlock(n, W, T)
    ensures BinBlock(r, W, T)
  {
  }

  /** The strings of the chains are the same. */
  ghost predicate StringsKept(m: seq<Descr>, n: seq<Descr>, chains: seq<seq<int>>) {
    forall k, i :: 0 <= k < |chains| && 0 <= i < |chains[k]| ==> Text(n, chains[k][i]) == Text(m, chains[k][i])
  }

  lemma InsertKept(m: seq<Descr>, n: seq<Descr>, r: seq<Descr>, W: World, T: Tables, chains: seq<seq<int>>, x: int, a: int)
    requires Sound(m, W, T, chains) && Added(m, n, W) && LinkSet(n, r, x, a)
    ensures StringsKept(m, r, chains)
  {
    hide Added, Bases, BlockOk, ChainString, Chained, Homed, LinkSet, Order, Permanent, Placed, Scratch, Sound, Text,
      Tiled;
    SoundBase(m, W, T, chains);
    forall k, i | 0 <= k < |chains| && 0 <= i < |chains[k]|
      ensures Text(r, chains[k][i]) == Text(m, chains[k][i])
    {
      InChain(m, W, T.oblist, chains, k, i);
      AddedString(m, n, W, chains[k][i]);
      LinkSetString(n, r, x, a, chains[k][i]);
    }
  }

  /** The table after the insertion. */
  lemma InsertTable(m: seq<Descr>, n: seq<Descr>, r: seq<Descr>, W: World, T: Tables, h: Hash, chains: seq<seq<int>>,
                    R: Registers, i: int, s: string)
    requires TableOk(m, W, T, h, chains, R) && 0 <= h.bin(s) < |chains| && s != ""
    requires Between(m, h, chains[h.bin(s)], i, s)
    requires Laid(m, n, W, W.hi, s, h.ord(s), Here(chains[h.bin(s)], i))
    requires LinkSet(n, r, At(T, h.bin(s), chains[h.bin(s)], i) + LNKFLD, W.hi)
    ensures 0 < W.hi < |n|
    ensures var W1, chains1 := Longer(W, BkSize(n[W.hi])), Inserted(chains, h.bin(s), i, W.hi);
            TableOk(r, W1, T, h, chains1, R) && Text(r, W.hi) == s && StringsKept(m, r, chains)
  {
    hide Added, Bases, BinBlock, BkSize, BlockOk, Chained, Homed, Inserted, Interned, Laid, LinkSet, Longer, Order,
      Permanent, Placed, Precedes, Register, Scratch, Sound, StringsKept, Text, Tiled;
    var k := h.bin(s);
    var x := At(T, k, chains[k], i) + LNKFLD;
    assert x == LinkCell(T.oblist + k, chains[k], i);
    assert 0 <= i <= |chains[k]|;
    SoundBase(m, W, T, chains);
    InsertAll(m, n, r, W, T, h, chains, i, s);
    LaidAdded(m, n, W, s, h.ord(s), Here(chains[k], i));
    AddedRange(m, n, W);
    AddedSound(m, n, W, T, chains);
    AddedRegister(m, n, W, T, chains, R.lst);
    AddedRegister(m, n, W, T, chains, R.buk);
    LinkSetRegister(n, r, Longer(W, BkSize(n[W.hi])), T, x, W.hi, R.lst);
    LinkSetRegister(n, r, Longer(W, BkSize(n[W.hi])), T, x, W.hi, R.buk);
    AddedBins(m, n, W, T, chains);
    LinkSetBins(n, r, Longer(W, BkSize(n[W.hi])), T, x, W.hi);
    InsertKept(m, n, r, W, T, chains, x, W.hi);
  }

  /** The search has ended at place i of its chain without finding s, and the
      registers say so. */
  ghost predicate Placing(m: seq<Descr>, T: Tables, h: Hash, chains: seq<seq<int>>, R: Registers, i: int, s: string) {
    && 0 <= h.bin(s) < |chains| && s != "" && 0 < R.lst < |m| && 0 < R.buk < |m|
    && Between(m, h, chains[h.bin(s)], i, s)
    && m[R.lst] == Pointer(At(T, h.bin(s), chains[h.bin(s)], i))
    && m[R.buk] == Pointer(Here(chains[h.bin(s)], i))
  }

  /** A collection in the middle of an insertion does no harm: the table is in
      order, and the registers are at the new place for s. */
  lemma PlacingAgain(m0: seq<Descr>, W: World, m: seq<Descr>, m1: seq<Descr>, W1: World, T: Tables,
                     chains: seq<seq<int>>, chains1: seq<seq<int>>, h: Hash, R: Registers, i: int, s: string)
    requires Regenerated(m0, W, m, m1, W1, T, chains, chains1) && TableOk(m0, W, T, h, chains, R)
    requires Placing(m0, T, h, chains, R, i, s)
    ensures TableOk(m1, W1, T, h, chains1, R)
    ensures Placing(m1, T, h, chains1, R, NewPlace(m, W, chains[h.bin(s)], i), s)
  {
    hide Alive, BaseOk, Bases, BinBlock, BlockOk, Chained, Collected, Homed, Interned, IsChain, Listed, MarkedOk,
      NewChain, NewHome, NewPlace, NewWorld, Order, Permanent, Placed, Pointer, Precedes, Regenerated, Register,
      Scratch, Sound, Tiled;
    var k := h.bin(s);
    var c := chains[k];
    assert 0 <= i <= |c|;
    TableAgain(m0, W, m, m1, W1, T, chains, chains1, h, R);
    RegisterAgain(m0, W, m, m1, W1, T, chains, chains1, R.lst, At(T, k, c, i));
    RegisterAgain(m0, W, m, m1, W1, T, chains, chains1, R.buk, Here(c, i));
    SoundParts(m0, W, T, chains);
    SoundBase(m0, W, T, chains);
    Steady(m0, W, T, chains, k, i);
    BetweenAgain(m0, W, m, m1, W1, T, chains, chains1, h, k, i, s);
    Neighbours(m, W, c, i);
    assert chains1[k] == NewChain(m, W, c, 0) && |chains1| == |chains| by {
      RegeneratedParts(m0, W, m, m1, W1, T, chains, chains1);
    }
  }

  /** What the registers point to is a bin, a string, or nothing. */
  lemma Steady(m: seq<Descr>, W: World, T: Tables, chains: seq<seq<int>>, k: int, i: int)
    requires Chained(m, W, T.oblist, chains) && 0 <= k < |chains| == T.obsiz && 0 <= i <= |chains[k]|
    ensures if i == 0 then T.oblist <= At(T, k, chains[k], i) < T.oblist + T.obsiz else At(T, k, chains[k], i) in W.dyn
    ensures if i == 0 then At(T, k, chains[k], i) == T.oblist + k else At(T, k, chains[k], i) == chains[k][i - 1]
    ensures if i < |chains[k]| then Here(chains[k], i) in W.dyn && Here(chains[k], i) == chains[k][i]
            else Here(chains[k], i) == 0
  {
    if i > 0 {
      InChain(m, W, T.oblist, chains, k, i - 1);
    }
    if i < |chains[k]| {
      InChain(m, W, T.oblist, chains, k, i);
    }
  }

  /** Free storage at address at already holds a string's characters, with its
      value and attributes in order. */
  ghost predicate Typed(m: seq<Descr>, W: World, at: int, s: string) {
    && 0 < at && at + LNKFLD < |m| && Chars(m, at + LNKFLD + 1, |s|) == s
    && !m[at + 1].ttl && PtrOk(m, W, m[at + 1]) && !m[at + ATTRIB].ttl && PtrOk(m, W, m[at + ATTRIB])
  }

  lemma PlacingWhere(m: seq<Descr>, W: World, T: Tables, h: Hash, chains: seq<seq<int>>, R: Registers, i: int, s: string)
    requires TableOk(m, W, T, h, chains, R) && Placing(m, T, h, chains, R, i, s)
    ensures var k := h.bin(s);
            && 0 <= i <= |chains[k]| && 0 < At(T, k, chains[k], i) + LNKFLD < W.hi <= |m| && 0 < W.hi
            && m[R.lst].a == At(T, k, chains[k], i) && m[R.buk].a == Here(chains[k], i)
            && At(T, k, chains[k], i) + LNKFLD == LinkCell(T.oblist + k, chains[k], i)
            && R.lst < W.hi && R.buk < W.hi
  {
    hide Interned, Text, Order, Placed, Scratch, Permanent, BlockOk;
    var k := h.bin(s);
    SoundBase(m, W, T, chains);
    SoundRegion(m, W, T, chains);
    RegisterPlace(m, W, T, chains, R.lst);
    RegisterPlace(m, W, T, chains, R.buk);
    assert IsChain(m, W, T.oblist + k, chains[k]);
    if i > 0 {
      InChain(m, W, T.oblist, chains, k, i - 1);
    }
  }

  /** The characters of s that go into cell q. */
  function Piece(s: string, q: int): string {
    if 0 <= q && q * CPD < |s| then (if q * CPD + CPD <= |s| then s[q * CPD..q * CPD + CPD] else s[q * CPD..]) else ""
  }

  lemma PiecesText(m: seq<Descr>, a: int, s: string)
    requires s != "" && 0 < a && a + (|s| - 1) / CPD < |m|
    requires forall p :: 0 <= p < (|s| - 1) / CPD + 1 ==> m[a + p].chars == Piece(s, p)
    ensures Chars(m, a, |s|) == s
  {
    var r := Chars(m, a, |s|);
    forall k | 0 <= k < |s|
      ensures r[k] == s[k]
    {
      PieceChar(s, k);
      assert m[a + k / CPD].chars == Piece(s, k / CPD);
    }
  }

  lemma PieceChar(s: string, k: int)
    requires 0 <= k < |s|
    ensures 0 <= k / CPD < (|s| - 1) / CPD + 1
    ensures 0 <= k % CPD < |Piece(s, k / CPD)| && Piece(s, k / CPD)[k % CPD] == s[k]
  {
  }

  /** The block of a new string, written field by field. */
  lemma LaidNow(m0: seq<Descr>, m1: seq<Descr>, m2: seq<Descr>, n: seq<Descr>, W: World, at: int, s: string, convsw: bool,
                ord: int, link: int)
    requires 0 < at && s != "" && at + LNKFLD + 1 + (|s| - 1) / CPD + 1 <= |m0|
    requires m1 == m0[at := ZEROCL.(a := at, ttl := true, sttl := true, v := |s|)]
    requires if convsw then m2 == m1 && Typed(m0, W, at, s)
             else |m2| == |m1| && (forall x :: 0 <= x <= at ==> m2[x] == m1[x])
                  && m2[at + 1] == NULVCL && m2[at + ATTRIB] == ZEROCL && Chars(m2, at + LNKFLD + 1, |s|) == s
    requires n == m2[at + LNKFLD := m2[at + LNKFLD].(v := ord, a := link)]
    ensures Laid(m0, n, W, at, s, ord, link)
  {
    CharsAhead(if convsw then m0 else m2, n, at, |s|);
    assert n[..at] == m0[..at];
  }

  /** From m to n a string of len characters has been entered at address at, and
      of all that lies below it the address in the cell x has changed. */
  ghost predicate NewEntry(m: seq<Descr>, n: seq<Descr>, x: int, at: int, len: int) {
    && |n| == |m| && 0 < x < at && at + LNKFLD < |n|
    && (forall y :: 0 <= y < at && y != x ==> n[y] == m[y]) && n[x] == m[x].(a := at)
    && n[at] == ZEROCL.(a := at, ttl := true, sttl := true, v := len)
  }

  lemma NewEntryNow(m: seq<Descr>, n: seq<Descr>, r: seq<Descr>, W: World, at: int, s: string, ord: int, link: int, x: int)
    requires Laid(m, n, W, at, s, ord, link) && LinkSet(n, r, x, at) && 0 < x < at
    ensures NewEntry(m, r, x, at, |s|) && r[at + 1] == n[at + 1] && r[at + ATTRIB] == n[at + ATTRIB]
  {
    hide PtrOk, Chars;
    assert forall y :: 0 <= y < at ==> n[y] == n[..at][y] && m[y] == m[..at][y];
  }

  lemma CharsAhead(m: seq<Descr>, n: seq<Descr>, at: int, len: int)
    requires |m| == |n| && 0 < at && 0 <= len && forall x :: at + LNKFLD < x < |m| ==> n[x] == m[x]
    ensures Chars(n, at + LNKFLD + 1, len) == Chars(m, at + LNKFLD + 1, len)
  {
  }

  /** X_GETLTH: how much room the string needs behind its title. */
  function Length(s: string): int {
    LNKFLD + ((|s| - 1) / CPD + 1)
  }

  lemma NotFound(m: seq<Descr>, h: Hash, chains: seq<seq<int>>, i: int, s: string)
    requires Interned(m, h, chains) && 0 <= h.bin(s) < |chains| && Between(m, h, chains[h.bin(s)], i, s)
    ensures forall j :: 0 <= j < |chains[h.bin(s)]| ==> Text(m, chains[h.bin(s)][j]) != s
  {
    hide Text, Order, Between;
    var k := h.bin(s);
    forall j | 0 <= j < |chains[k]|
      ensures Text(m, chains[k][j]) != s
    {
      NotInTable(m, h, chains, i, s, k, j);
    }
  }

  /** What is not in the table after the search was not there before. */
  lemma NotEntered(m: seq<Descr>, m0: seq<Descr>, W: World, T: Tables, h: Hash, chains: seq<seq<int>>, R: Registers, s: string)
    requires TableOk(m0, W, T, h, chains, R) && OnlyRegisters(m, m0, R) && 0 <= h.bin(s) < |chains|
    ensures forall j :: 0 <= j < |chains[h.bin(s)]| ==> Text(m, chains[h.bin(s)][j]) == Text(m0, chains[h.bin(s)][j])
  {
    hide Sound, Interned, Text, Placed, Scratch, Permanent, BlockOk, Tiled, Register, BinBlock, ChainString;
    SoundBase(m0, W, T, chains);
    RegisterPlace(m0, W, T, chains, R.lst);
    RegisterPlace(m0, W, T, chains, R.buk);
    forall j | 0 <= j < |chains[h.bin(s)]|
      ensures Text(m, chains[h.bin(s)][j]) == Text(m0, chains[h.bin(s)][j])
    {
      InChain(m0, W, T.oblist, chains, h.bin(s), j);
      TextApart(m0, m, W, R, chains[h.bin(s)][j]);
    }
  }

  lemma TextApart(m0: seq<Descr>, m: seq<Descr>, W: World, R: Registers, t: int)
    requires Tiled(m0, W) && ChainString(m0, W, t) && OnlyRegisters(m, m0, R) && R.lst < W.lo && R.buk < W.lo
    ensures Text(m, t) == Text(m0, t)
  {
    hide Tiled, BkSize;
    var i := StringBlock(m0, W, t);
    assert m[t] == m0[t];
    forall o | LNKFLD <= o < BkSize(m0[t])
      ensures SameCell(m0, t, m, t, o)
    {
      assert m[t + o] == m0[t + o] && W.hi <= |m0|;
    }
    BlockString(m0, t, m, t);
  }

  lemma TypedStill(m: seq<Descr>, m0: seq<Descr>, W: World, T: Tables, h: Hash, chains: seq<seq<int>>, R: Registers, s: string)
    requires TableOk(m, W, T, h, chains, R) && OnlyRegisters(m, m0, R) && Typed(m, W, W.hi, s)
    requires 0 < R.lst < |m0| && 0 < R.buk < |m0| && !m0[R.lst].ttl && !m0[R.buk].ttl
    ensures Typed(m0, W, W.hi, s)
  {
    hide Sound, Interned, Text, Order, Placed, Scratch, BlockOk, Chained, Register, PtrOk, Chars;
    SoundBase(m, W, T, chains);
    SoundRegion(m, W, T, chains);
    RegisterPlace(m, W, T, chains, R.lst);
    RegisterPlace(m, W, T, chains, R.buk);
    SamePointer(m, m0, W, m[W.hi + 1]);
    SamePointer(m, m0, W, m[W.hi + ATTRIB]);
    CharsAhead(m, m0, W.hi, |s|);
  }

  lemma SamePointer(m: seq<Descr>, m0: seq<Descr>, W: World, d: Descr)
    requires |m| == |m0| && (forall x :: 0 <= x < |m| ==> m0[x].ttl == m[x].ttl && (m[x].ttl ==> m0[x] == m[x]))
    requires PtrOk(m, W, d)
    ensures PtrOk(m0, W, d)
  {
    if d.ptr && d.a != 0 {
      TopSame(m, m0, d.a);
    }
  }
}
