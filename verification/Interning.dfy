/** The table of strings: equal strings have one address. */
module Interning {
  import opened Heap
  import opened Marking
  import opened Roots
  import opened Forwarding
  import opened Relinking
  import opened Relocation
  import opened Compaction
  import opened Soundness
  import opened Survival
  import opened Growth

  /** Any hash function: the bin, and the order number within the chain. */
  datatype Hash = Hash(bin: string -> int, ord: string -> int)

  function CharOf(d: Descr, i: int): char
    requires 0 <= i
  {
    if i < |d.chars| then d.chars[i] else ' '
  }

  /** The n characters kept from cell a on. */
  function Chars(m: seq<Descr>, a: int, n: int): (s: string)
    requires 0 <= n
    ensures |s| == n
  {
    seq(n, k requires 0 <= k < n => if 0 <= a + k / CPD < |m| then CharOf(m[a + k / CPD], k % CPD) else ' ')
  }

  /** The string that the block at t holds. */
  function Text(m: seq<Descr>, t: int): (s: string) {
    if 0 <= t < |m| && m[t].v >= 0 then Chars(m, t + LNKFLD + 1, m[t].v) else ""
  }

  /** Its order number. */
  function Order(m: seq<Descr>, t: int): int {
    if 0 <= t + LNKFLD < |m| then m[t + LNKFLD].v else 0
  }

  ghost predicate Filed(m: seq<Descr>, h: Hash, k: int, t: int) {
    Text(m, t) != "" && h.bin(Text(m, t)) == k && h.ord(Text(m, t)) == Order(m, t)
  }

  /** A chain is filed under its bin, ordered by number, and holds no string
      twice. */
  ghost predicate Filing(m: seq<Descr>, h: Hash, k: int, c: seq<int>) {
    && (forall i :: 0 <= i < |c| ==> Filed(m, h, k, c[i]))
    && (forall i, j :: 0 <= i < j < |c| ==> InOrder(m, c[i], c[j]))
  }

  ghost predicate InOrder(m: seq<Descr>, t: int, u: int) {
    Order(m, t) <= Order(m, u) && Text(m, t) != Text(m, u)
  }

  ghost predicate Interned(m: seq<Descr>, h: Hash, chains: seq<seq<int>>) {
    forall k :: 0 <= k < |chains| ==> Filing(m, h, k, chains[k])
  }

  /** Interning is canonical: strings in the table have the same address just
      when they are equal. */
  lemma Canonical(m: seq<Descr>, h: Hash, chains: seq<seq<int>>, k: int, i: int, l: int, j: int)
    requires Interned(m, h, chains)
    requires 0 <= k < |chains| && 0 <= i < |chains[k]| && 0 <= l < |chains| && 0 <= j < |chains[l]|
    ensures Text(m, chains[k][i]) == Text(m, chains[l][j]) <==> chains[k][i] == chains[l][j]
  {
    hide Text, Order;
    assert Filing(m, h, k, chains[k]) && Filing(m, h, l, chains[l]);
    if Text(m, chains[k][i]) == Text(m, chains[l][j]) {
      assert Filed(m, h, k, chains[k][i]) && Filed(m, h, l, chains[l][j]);
      assert i < j ==> InOrder(m, chains[k][i], chains[k][j]);
      assert j < i ==> InOrder(m, chains[k][j], chains[k][i]);
    }
  }

  // ------------------------------------------------- the same strings elsewhere

  /** Block u of n holds the string and the number that block t of m holds. */
  ghost predicate SameString(m: seq<Descr>, t: int, n: seq<Descr>, u: int) {
    Text(n, u) == Text(m, t) && Order(n, u) == Order(m, t)
  }

  /** A chain of the same strings, some of them left out. */
  lemma FilingSame(m: seq<Descr>, n: seq<Descr>, h: Hash, k: int, c: seq<int>, d: seq<int>, place: seq<int>)
    requires Filing(m, h, k, c) && |place| == |d|
    requires forall j :: 0 <= j < |d| ==> 0 <= place[j] < |c| && SameString(m, c[place[j]], n, d[j])
    requires forall i, j :: 0 <= i < j < |d| ==> place[i] < place[j]
    ensures Filing(n, h, k, d)
  {
    hide Text, Order;
    forall j | 0 <= j < |d|
      ensures Filed(n, h, k, d[j])
    {
      assert Filed(m, h, k, c[place[j]]);
    }
    forall i, j | 0 <= i < j < |d|
      ensures InOrder(n, d[i], d[j])
    {
      assert InOrder(m, c[place[i]], c[place[j]]);
    }
  }

  /** Place o of the blocks holds the same characters and number. */
  ghost predicate SameCell(m: seq<Descr>, t: int, n: seq<Descr>, u: int, o: int) {
    && 0 <= t + o < |m| && 0 <= u + o < |n|
    && n[u + o].v == m[t + o].v && n[u + o].chars == m[t + o].chars
  }

  lemma CharsSame(m: seq<Descr>, t: int, n: seq<Descr>, u: int, len: int)
    requires 0 <= len
    requires forall k :: 0 <= k < len ==> SameCell(m, t, n, u, LNKFLD + 1 + k / CPD)
    ensures Chars(n, u + LNKFLD + 1, len) == Chars(m, t + LNKFLD + 1, len)
  {
    var r, s := Chars(n, u + LNKFLD + 1, len), Chars(m, t + LNKFLD + 1, len);
    forall k | 0 <= k < len
      ensures r[k] == s[k]
    {
      assert SameCell(m, t, n, u, LNKFLD + 1 + k / CPD);
    }
  }

  /** Where in its block a string's k-th character is. */
  lemma CharPlace(title: Descr, k: int)
    requires title.sttl && 0 <= k < title.v
    ensures LNKFLD < LNKFLD + 1 + k / CPD < BkSize(title)
  {
  }

  /** A string is the same when its block's cells from the link on are. */
  lemma BlockString(m: seq<Descr>, t: int, n: seq<Descr>, u: int)
    requires 0 <= t < |m| && 0 <= u < |n| && m[t].sttl && m[t].v >= 1 && n[u].v == m[t].v
    requires forall o :: LNKFLD <= o < BkSize(m[t]) ==> SameCell(m, t, n, u, o)
    ensures SameString(m, t, n, u)
  {
    hide BkSize, Chars;
    forall k | 0 <= k < m[t].v
      ensures SameCell(m, t, n, u, LNKFLD + 1 + k / CPD)
    {
      CharPlace(m[t], k);
    }
    CharsSame(m, t, n, u, m[t].v);
    CharPlace(m[t], 0);
    assert SameCell(m, t, n, u, LNKFLD);
  }

  // ------------------------------------------------------ through a collection

  /** A string of a chain lies within its block. */
  lemma StringBlock(m: seq<Descr>, W: World, t: int) returns (i: int)
    requires Tiled(m, W) && ChainString(m, W, t)
    ensures 0 <= i < |W.dyn| && W.dyn[i] == t && BlockAt(m, W, i)
    ensures 0 < t < |m| && m[t].sttl && m[t].v >= 1 && t + BkSize(m[t]) <= W.hi && W.lo <= t
  {
    i :| 0 <= i < |W.dyn| && W.dyn[i] == t;
    InRegion(m, W, i);
  }

  lemma MarkedString(m0: seq<Descr>, m: seq<Descr>, W: World, T: Tables, K: set<int>, t: int)
    requires LiveMarked(m0, m, W, T, K) && Tiled(m0, W) && ChainString(m0, W, t) && T.gcblk + 1 < W.lo
    ensures SameString(m0, t, m, t)
  {
    hide Live, SameString;
    var i := StringBlock(m0, W, t);
    assert m[t].v == m0[t].v;
    forall o | LNKFLD <= o < BkSize(m0[t])
      ensures SameCell(m0, t, m, t, o)
    {
      if t + o in W.dyn {
        Inside(m0, W, i, t + o);
      }
      assert m[t + o] == m0[t + o];
    }
    BlockString(m0, t, m, t);
  }

  lemma MovedString(m: seq<Descr>, m1: seq<Descr>, W: World, T: Tables, P: set<int>, chains: seq<seq<int>>, t: int)
    requires MarkedOk(m, W, T, P, chains) && Collected(m, m1, W, P, T.oblist, chains) && ChainString(m, W, t) && Alive(m, t)
    ensures SameString(m, t, m1, NewHome(m, W, t))
  {
    hide Bases, BkSize, BlockAt, ChainString, Chained, Collected, Followed, Homed, NewHome, NewWorld, Permanent,
      Placed, PointerKept, Room, SameString, Scratch, Tiled;
    assert Tiled(m, W);
    var i := StringBlock(m, W, t);
    assert Stays(m, W, i);
    HeaderKept(m, m1, W, T, P, chains, i);
    forall o | LNKFLD <= o < BkSize(m[t])
      ensures SameCell(m, t, m1, NewHome(m, W, t), o)
    {
      CellKept(m, m1, W, T, P, chains, i, o);
    }
    BlockString(m, t, m1, NewHome(m, W, t));
  }

  ghost function Places(m: seq<Descr>, W: World, c: seq<int>): (s: seq<int>)
    ensures |s| == |NewChain(m, W, c, 0)|
  {
    seq(|NewChain(m, W, c, 0)|, j requires 0 <= j < |NewChain(m, W, c, 0)| => Place(m, W, c, 0, j))
  }

  lemma FilingAgain(m0: seq<Descr>, W: World, m: seq<Descr>, m1: seq<Descr>, W1: World, T: Tables,
                    chains: seq<seq<int>>, chains1: seq<seq<int>>, h: Hash, k: int)
    requires Regenerated(m0, W, m, m1, W1, T, chains, chains1) && Sound(m0, W, T, chains) && 0 <= k < |chains|
    requires Filing(m0, h, k, chains[k])
    ensures Filing(m1, h, k, NewChain(m, W, chains[k], 0))
  {
    hide Alive, Filing, NewChain, NewHome, Place, Regenerated, SameString, Sound;
    var c, d, place := chains[k], NewChain(m, W, chains[k], 0), Places(m, W, chains[k]);
    forall j | 0 <= j < |d|
      ensures 0 <= place[j] < |c| && SameString(m0, c[place[j]], m1, d[j])
    {
      StringAgain(m0, W, m, m1, W1, T, chains, chains1, k, place[j]);
    }
    forall i, j | 0 <= i < j < |d|
      ensures place[i] < place[j]
    {
      PlaceOrder(m, W, c, 0, i, j);
    }
    FilingSame(m0, m1, h, k, c, d, place);
  }

  /** A string of a chain is the same after a collection, if it stays. */
  lemma StringAgain(m0: seq<Descr>, W: World, m: seq<Descr>, m1: seq<Descr>, W1: World, T: Tables,
                    chains: seq<seq<int>>, chains1: seq<seq<int>>, k: int, p: int)
    requires Regenerated(m0, W, m, m1, W1, T, chains, chains1) && Sound(m0, W, T, chains)
    requires 0 <= k < |chains| && 0 <= p < |chains[k]| && Alive(m, chains[k][p])
    ensures SameString(m0, chains[k][p], m1, NewHome(m, W, chains[k][p]))
  {
    hide Alive, Bases, BlockOk, ChainString, Chained, Collected, Homed, KeptOn, LiveMarked, MarkedOk, NewChains,
      NewHome, NewWorld, Order, Permanent, Placed, SlotOf, Sound, Text, Tiled;
    var t := chains[k][p];
    assert LiveMarked(m0, m, W, T, KeptOn(m0, chains, |chains|)) && MarkedOk(m, W, T, Bases(m0, T), chains)
           && Collected(m, m1, W, Bases(m0, T), T.oblist, chains);
    SoundBase(m0, W, T, chains);
    assert T.gcblk + 1 < W.lo;
    MarkedOkParts(m, W, T, Bases(m0, T), chains);
    InChain(m0, W, T.oblist, chains, k, p);
    InChain(m, W, T.oblist, chains, k, p);
    MarkedString(m0, m, W, T, KeptOn(m0, chains, |chains|), t);
    MovedString(m, m1, W, T, Bases(m0, T), chains, t);
  }

  lemma InChain(m: seq<Descr>, W: World, oblist: int, chains: seq<seq<int>>, k: int, p: int)
    requires Chained(m, W, oblist, chains) && 0 <= k < |chains| && 0 <= p < |chains[k]|
    ensures ChainString(m, W, chains[k][p])
  {
    assert IsChain(m, W, oblist + k, chains[k]);
  }

  /** A collection leaves the table of strings in order. */
  lemma InternedAgain(m0: seq<Descr>, W: World, m: seq<Descr>, m1: seq<Descr>, W1: World, T: Tables,
                      chains: seq<seq<int>>, chains1: seq<seq<int>>, h: Hash)
    requires Regenerated(m0, W, m, m1, W1, T, chains, chains1) && Sound(m0, W, T, chains) && Interned(m0, h, chains)
    ensures Interned(m1, h, chains1)
  {
    hide Sound, Filing, NewChain;
    assert chains1 == NewChains(m, W, chains);
    forall k | 0 <= k < |chains1|
      ensures Filing(m1, h, k, chains1[k])
    {
      FilingAgain(m0, W, m, m1, W1, T, chains, chains1, h, k);
    }
  }

  // ------------------------------------------------------ through other changes

  /** The strings of all chains are the same in n. */
  lemma InternedSame(m: seq<Descr>, n: seq<Descr>, h: Hash, chains: seq<seq<int>>)
    requires Interned(m, h, chains)
    requires forall k, i :: 0 <= k < |chains| && 0 <= i < |chains[k]| ==> SameString(m, chains[k][i], n, chains[k][i])
    ensures Interned(n, h, chains)
  {
    hide Text, Order;
    forall k | 0 <= k < |chains|
      ensures Filing(n, h, k, chains[k])
    {
      var c := chains[k];
      assert Filing(m, h, k, c);
      forall i | 0 <= i < |c|
        ensures Filed(n, h, k, c[i])
      {
        assert Filed(m, h, k, c[i]) && SameString(m, chains[k][i], n, chains[k][i]);
      }
      forall i, j | 0 <= i < j < |c|
        ensures InOrder(n, c[i], c[j])
      {
        assert InOrder(m, c[i], c[j]);
        assert SameString(m, chains[k][i], n, chains[k][i]) && SameString(m, chains[k][j], n, chains[k][j]);
      }
    }
  }

  lemma SetString(m: seq<Descr>, W: World, x: int, d: Descr, t: int)
    requires Tiled(m, W) && ChainString(m, W, t) && 0 <= x < W.lo
    ensures W.lo <= |m| && SameString(m, t, m[x := d], t)
  {
    var i := StringBlock(m, W, t);
    var n := m[x := d];
    forall o | LNKFLD <= o < BkSize(m[t])
      ensures SameCell(m, t, n, t, o)
    {
    }
    BlockString(m, t, n, t);
  }

  lemma SetInterned(m: seq<Descr>, W: World, T: Tables, chains: seq<seq<int>>, h: Hash, x: int, d: Descr)
    requires Sound(m, W, T, chains) && Interned(m, h, chains) && 0 <= x < W.lo
    ensures W.lo <= |m| && Interned(m[x := d], h, chains)
  {
    hide *;
    SoundBase(m, W, T, chains);
    SoundRegion(m, W, T, chains);
    forall k, i | 0 <= k < |chains| && 0 <= i < |chains[k]|
      ensures SameString(m, chains[k][i], m[x := d], chains[k][i])
    {
      InChain(m, W, T.oblist, chains, k, i);
      SetString(m, W, x, d, chains[k][i]);
    }
    InternedSame(m, m[x := d], h, chains);
  }

  lemma AddedString(m: seq<Descr>, n: seq<Descr>, W: World, t: int)
    requires Tiled(m, W) && ChainString(m, W, t) && Added(m, n, W)
    ensures SameString(m, t, n, t)
  {
    hide Added, SameString, Tiled, ChainString;
    var i := StringBlock(m, W, t);
    AddedRange(m, n, W);
    SameBelow(m, n, W, t);
    forall o | LNKFLD <= o < BkSize(m[t])
      ensures SameCell(m, t, n, t, o)
    {
      SameBelow(m, n, W, t + o);
    }
    BlockString(m, t, n, t);
  }

  lemma AddedInterned(m: seq<Descr>, n: seq<Descr>, W: World, T: Tables, chains: seq<seq<int>>, h: Hash)
    requires Sound(m, W, T, chains) && Interned(m, h, chains) && Added(m, n, W)
    ensures Interned(n, h, chains)
  {
    hide *;
    SoundBase(m, W, T, chains);
    forall k, i | 0 <= k < |chains| && 0 <= i < |chains[k]|
      ensures SameString(m, chains[k][i], n, chains[k][i])
    {
      InChain(m, W, T.oblist, chains, k, i);
      AddedString(m, n, W, chains[k][i]);
    }
    InternedSame(m, n, h, chains);
  }

  lemma StoreInterned(m: seq<Descr>, W: World, T: Tables, chains: seq<seq<int>>, h: Hash, i: int, x: int, d: Descr)
    requires Sound(m, W, T, chains) && Interned(m, h, chains) && FollowedIn(m, W, i, x) && !d.ttl
    ensures Interned(m[x := d], h, chains)
  {
    hide *;
    SoundBase(m, W, T, chains);
    InRange(m, W, i, x);
    forall k, j | 0 <= k < |chains| && 0 <= j < |chains[k]|
      ensures SameString(m, chains[k][j], m[x := d], chains[k][j])
    {
      InChain(m, W, T.oblist, chains, k, j);
      StoreString(m, W, i, x, d, chains[k][j]);
    }
    InternedSame(m, m[x := d], h, chains);
  }

  lemma InRange(m: seq<Descr>, W: World, i: int, x: int)
    requires FollowedIn(m, W, i, x)
    ensures 0 <= x < |m|
  {
  }

  lemma StoreString(m: seq<Descr>, W: World, i: int, x: int, d: Descr, t: int)
    requires Tiled(m, W) && ChainString(m, W, t) && FollowedIn(m, W, i, x) && !d.ttl
    ensures SameString(m, t, m[x := d], t)
  {
    hide Tiled, BkSize, FollowedIn, SameString;
    var k := StringBlock(m, W, t);
    InRange(m, W, i, x);
    FollowedPlace(m, W, i, x);
    TitleIs(m, W, t);
    var n := m[x := d];
    forall o | LNKFLD <= o < BkSize(m[t])
      ensures SameCell(m, t, n, t, o)
    {
      FollowedApart(m, W, i, x, t, o);
      assert W.hi <= |m|;
    }
    BlockString(m, t, n, t);
  }

  lemma TitleIs(m: seq<Descr>, W: World, t: int)
    requires Tiled(m, W) && ChainString(m, W, t)
    ensures m[t].ttl
  {
    DynTitle(m, W, t);
  }
}
