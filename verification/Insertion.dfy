/** A new string is linked into its chain. */
module Insertion {
  import opened Heap
  import opened Marking
  import opened Roots
  import opened Forwarding
  import opened Relinking
  import opened Relocation
  import opened Compaction
  import opened Soundness
  import opened Survival
  import opened Growth
  import opened Interning

  /** x holds a link: it is a bin, or the link field of a string. */
  ghost predicate LinkSpot(m: seq<Descr>, W: World, T: Tables, x: int) {
    InBins(T, x) || exists t :: t in W.dyn && 0 < t < |m| && m[t].sttl && x == t + LNKFLD
  }

  /** n is m with another address in the link at x. */
  ghost predicate LinkSet(m: seq<Descr>, n: seq<Descr>, x: int, a: int) {
    0 <= x < |m| && n == m[x := m[x].(a := a)]
  }

  /** A link is no title and no descriptor that is followed. */
  lemma LinkLoose(m: seq<Descr>, W: World, T: Tables, chains: seq<seq<int>>, x: int, t: int)
    requires Sound(m, W, T, chains) && LinkSpot(m, W, T, x) && (t in W.dyn || t in W.perm)
    ensures 0 < x < |m| && x != t && (t in W.dyn || t in Bases(m, T) ==> !SlotOf(m, t, x))
  {
    hide Sound, Chained, PtrOk, Scratch, Homed, SlotIn;
    SoundBase(m, W, T, chains);
    SoundRegion(m, W, T, chains);
    if InBins(T, x) {
      if t in W.dyn {
        DynTitle(m, W, t);
      } else {
        BinNoSlot(m, W, T, t, x);
      }
    } else {
      var u :| u in W.dyn && 0 < u < |m| && m[u].sttl && x == u + LNKFLD;
      StringField(m, W, u, t);
    }
  }

  lemma BinNoSlot(m: seq<Descr>, W: World, T: Tables, t: int, x: int)
    requires Permanent(m, W) && Placed(m, W, T, Bases(m, T)) && InBins(T, x) && t in W.perm
    ensures 0 < x < |m| && x != t && (t in Bases(m, T) ==> !SlotOf(m, t, x))
  {
    if t in Bases(m, T) && SlotOf(m, t, x) {
      TopInBlock(m, t, x);
      assert SlotIn(m, Bases(m, T), x);
    }
  }

  lemma StringField(m: seq<Descr>, W: World, u: int, t: int)
    requires Tiled(m, W) && Permanent(m, W) && u in W.dyn && 0 < u < |m| && m[u].sttl && (t in W.dyn || t in W.perm)
    ensures 0 < u + LNKFLD < |m| && u + LNKFLD != t && !SlotOf(m, t, u + LNKFLD)
  {
    var i :| 0 <= i < |W.dyn| && W.dyn[i] == u;
    InRegion(m, W, i);
    if t in W.dyn {
      DynTitle(m, W, t);
      InsideOnly(m, W, i, u + LNKFLD, t);
    }
  }

  lemma LinkSetTop(m: seq<Descr>, n: seq<Descr>, x: int, a: int, y: int)
    requires LinkSet(m, n, x, a) && 0 <= y < |m|
    ensures TopOf(n, y) == TopOf(m, y)
  {
    TopSame(m, n, y);
  }

  lemma LinkSetTitle(m: seq<Descr>, n: seq<Descr>, x: int, a: int, t: int)
    requires LinkSet(m, n, x, a) && TitleAt(m, t) && x != t
    ensures TitleAt(n, t) && n[t] == m[t]
  {
  }

  lemma LinkSetBlock(m: seq<Descr>, n: seq<Descr>, W: World, x: int, a: int, t: int)
    requires LinkSet(m, n, x, a) && BlockOk(m, W, t) && x != t && !SlotOf(m, t, x)
    ensures BlockOk(n, W, t)
  {
    forall j | t < j <= t + Traced(m[t])
      ensures PtrOk(n, W, n[j])
    {
      assert PtrOk(m, W, m[j]);
      if m[j].ptr && m[j].a != 0 {
        LinkSetTop(m, n, x, a, m[j].a);
      }
    }
  }

  lemma LinkSetBlocks(m: seq<Descr>, n: seq<Descr>, W: World, T: Tables, chains: seq<seq<int>>, x: int, a: int)
    requires Sound(m, W, T, chains) && LinkSpot(m, W, T, x) && LinkSet(m, n, x, a)
    ensures Tiled(n, W) && Permanent(n, W) && Homed(n, W)
    ensures forall t :: t in W.dyn || t in W.perm ==> 0 < t < |m| && n[t] == m[t] && x != t
  {
    hide Sound, TitleAt, LinkSpot, SlotOf, Placed, Scratch, BlockOk, Chained;
    SoundBase(m, W, T, chains);
    assert |n| == |m|;
    forall t | t in W.dyn || t in W.perm
      ensures 0 < t < |m| && TitleAt(n, t) && n[t] == m[t] && x != t
    {
      LinkLoose(m, W, T, chains, x, t);
      if t in W.dyn {
        DynTitle(m, W, t);
      }
      TitleRange(m, t);
      LinkSetTitle(m, n, x, a, t);
    }
    forall i | 0 <= i < |W.dyn|
      ensures BlockAt(n, W, i)
    {
      assert BlockAt(m, W, i);
    }
  }

  lemma LinkSetPlaced(m: seq<Descr>, n: seq<Descr>, W: World, T: Tables, chains: seq<seq<int>>, x: int, a: int)
    requires Sound(m, W, T, chains) && LinkSpot(m, W, T, x) && LinkSet(m, n, x, a)
    ensures Placed(n, W, T, Bases(m, T)) && Bases(n, T) == Bases(m, T)
  {
    hide Sound, SlotIn, Listed, Tiled, Permanent, Scratch, BlockOk, Chained;
    var P := Bases(m, T);
    SoundBase(m, W, T, chains);
    SoundRegion(m, W, T, chains);
    forall y | 0 <= y < |m|
      ensures SlotIn(n, P, y) <==> SlotIn(m, P, y)
    {
      LinkSetTop(m, n, x, a, y);
      LinkSetSlot(m, n, P, x, a, y);
    }
    forall y | InTable(T, y)
      ensures y != x
    {
      if exists t :: t in W.dyn && 0 < t < |m| && m[t].sttl && x == t + LNKFLD {
        var t :| t in W.dyn && 0 < t < |m| && m[t].sttl && x == t + LNKFLD;
        DynTitle(m, W, t);
      }
    }
    forall y | T.prmptr < y <= T.prmptr + T.prmdx
      ensures n[y].a == m[y].a
    {
      assert InTable(T, y);
    }
    ListedSame(m, n, T.prmptr, 0, T.prmdx);
  }

  lemma LinkSetSlot(m: seq<Descr>, n: seq<Descr>, P: set<int>, x: int, a: int, y: int)
    requires LinkSet(m, n, x, a) && 0 <= y < |m| && TopOf(n, y) == TopOf(m, y)
    ensures SlotIn(n, P, y) <==> SlotIn(m, P, y)
  {
  }

  /** Relinking leaves storage in order when the chains are. */
  lemma LinkSetSound(m: seq<Descr>, n: seq<Descr>, W: World, T: Tables, chains: seq<seq<int>>, chains1: seq<seq<int>>, x: int, a: int)
    requires Sound(m, W, T, chains) && LinkSpot(m, W, T, x) && LinkSet(m, n, x, a)
    requires Chained(n, W, T.oblist, chains1) && |chains1| == |chains|
    ensures Sound(n, W, T, chains1) && Bases(n, T) == Bases(m, T)
  {
    hide Bases, BlockOk, Chained, Homed, LinkSpot, Permanent, Placed, Tiled, Traced;
    var P := Bases(m, T);
    SoundBase(m, W, T, chains);
    LinkSetBlocks(m, n, W, T, chains, x, a);
    LinkSetPlaced(m, n, W, T, chains, x, a);
    assert |n| == |m|;
    forall t | t in W.dyn || t in P
      ensures BlockOk(n, W, t)
    {
      LinkLoose(m, W, T, chains, x, t);
      LinkSetBlock(m, n, W, x, a, t);
    }
    assert Scratch(n, W, P, T.gcblk + 1) by {
      forall p | p in P
        ensures !SlotOf(n, p, T.gcblk + 1)
      {
        assert n[p] == m[p];
      }
    }
  }

  // ------------------------------------------------------------- the chains

  /** t is put before place i of chain k. */
  ghost function Inserted(chains: seq<seq<int>>, k: int, i: int, t: int): (s: seq<seq<int>>)
    requires 0 <= k < |chains| && 0 <= i <= |chains[k]|
    ensures |s| == |chains|
  {
    chains[k := chains[k][..i] + [t] + chains[k][i..]]
  }

  /** The new string is not on any chain yet, and its link leads on. */
  ghost predicate Fresh(m: seq<Descr>, W: World, oblist: int, chains: seq<seq<int>>, k: int, i: int, t: int) {
    && 0 <= k < |chains| && 0 <= i <= |chains[k]| && ChainString(m, W, t) && m[t + LNKFLD].a == (if i < |chains[k]| then chains[k][i] else 0)
    && forall l, j :: 0 <= l < |chains| && 0 <= j < |chains[l]| ==> chains[l][j] != t
  }

  lemma InsertOne(m: seq<Descr>, n: seq<Descr>, W: World, bin: int, c: seq<int>, i: int, t: int)
    requires IsChain(m, W, bin, c) && 0 <= i <= |c| && ChainString(m, W, t) && t !in c
    requires m[t + LNKFLD].a == if i < |c| then c[i] else 0
    requires forall p, q :: 0 <= p < q < |c| ==> c[p] != c[q]
    requires LinkSet(m, n, LinkCell(bin, c, i), t) && W.lo <= t
    requires forall u :: u in W.dyn ==> u != LinkCell(bin, c, i)
    ensures IsChain(n, W, bin, c[..i] + [t] + c[i..])
  {
    var d := c[..i] + [t] + c[i..];
    forall j | 0 <= j < |d|
      ensures ChainString(n, W, d[j])
    {
      if j != i {
        var p := if j < i then j else j - 1;
        assert d[j] == c[p] && ChainString(m, W, c[p]);
      }
    }
    forall j | 0 <= j <= |d|
      ensures LinkAt(n, bin, d, j)
    {
      InsertLink(m, n, W, bin, c, i, t, j);
    }
  }

  lemma InsertLink(m: seq<Descr>, n: seq<Descr>, W: World, bin: int, c: seq<int>, i: int, t: int, j: int)
    requires IsChain(m, W, bin, c) && 0 <= i <= |c| && ChainString(m, W, t) && t !in c
    requires m[t + LNKFLD].a == if i < |c| then c[i] else 0
    requires forall p, q :: 0 <= p < q < |c| ==> c[p] != c[q]
    requires LinkSet(m, n, LinkCell(bin, c, i), t) && 0 <= j <= |c| + 1
    ensures LinkAt(n, bin, c[..i] + [t] + c[i..], j)
  {
    var d := c[..i] + [t] + c[i..];
    assert LinkAt(m, bin, c, i);
    assert i > 0 ==> ChainString(m, W, c[i - 1]);
    if j <= i {
      assert LinkAt(m, bin, c, j);
      assert j > 0 ==> d[j - 1] == c[j - 1] && ChainString(m, W, c[j - 1]);
    } else if j > i + 1 {
      assert LinkAt(m, bin, c, j - 1);
      assert d[j - 1] == c[j - 2] && ChainString(m, W, c[j - 2]);
    } else {
      assert d[j - 1] == t && (i > 0 ==> c[i - 1] != t);
    }
  }

  lemma InsertOther(m: seq<Descr>, n: seq<Descr>, W: World, bin: int, c: seq<int>, x: int, a: int)
    requires IsChain(m, W, bin, c) && LinkSet(m, n, x, a) && !LinkOf(bin, c, x)
    requires forall u :: u in W.dyn ==> u != x
    ensures IsChain(n, W, bin, c)
  {
    forall j | 0 <= j < |c|
      ensures ChainString(n, W, c[j])
    {
      assert ChainString(m, W, c[j]);
    }
    forall j | 0 <= j <= |c|
      ensures LinkAt(n, bin, c, j)
    {
      assert LinkAt(m, bin, c, j);
      assert LinkCell(bin, c, j) != x;
    }
  }

  lemma InsertApart(chains: seq<seq<int>>, k: int, i: int, t: int)
    requires Apart(chains) && 0 <= k < |chains| && 0 <= i <= |chains[k]|
    requires forall l, j :: 0 <= l < |chains| && 0 <= j < |chains[l]| ==> chains[l][j] != t
    ensures Apart(Inserted(chains, k, i, t))
  {
    var s := Inserted(chains, k, i, t);
    forall p, q, r, u | 0 <= p < |s| && 0 <= q < |s[p]| && 0 <= r < |s| && 0 <= u < |s[r]| && s[p][q] == s[r][u]
      ensures p == r && q == u
    {
      Before(chains, k, i, t, p, q);
      Before(chains, k, i, t, r, u);
    }
  }

  /** Where an element was before the insertion. */
  lemma Before(chains: seq<seq<int>>, k: int, i: int, t: int, p: int, q: int)
    requires 0 <= k < |chains| && 0 <= i <= |chains[k]|
    requires var s := Inserted(chains, k, i, t); 0 <= p < |s| && 0 <= q < |s[p]|
    ensures var s := Inserted(chains, k, i, t);
            if p == k && q == i then s[p][q] == t
            else var b := if p == k && q > i then q - 1 else q; 0 <= b < |chains[p]| && s[p][q] == chains[p][b]
  {
  }

  /** Inserting a string makes one longer chain. */
  lemma InsertChained(m: seq<Descr>, n: seq<Descr>, W: World, T: Tables, chains: seq<seq<int>>, k: int, i: int, t: int)
    requires Sound(m, W, T, chains) && Fresh(m, W, T.oblist, chains, k, i, t)
    requires LinkSet(m, n, LinkCell(T.oblist + k, chains[k], i), t)
    ensures LinkSpot(m, W, T, LinkCell(T.oblist + k, chains[k], i))
    ensures Chained(n, W, T.oblist, Inserted(chains, k, i, t))
  {
    hide Sound, Tiled, Permanent, Placed, BlockOk, Scratch, IsChain, LinkSet;
    var bin, c, x := T.oblist + k, chains[k], LinkCell(T.oblist + k, chains[k], i);
    SoundBase(m, W, T, chains);
    assert IsChain(m, W, bin, c);
    SpotOf(m, W, T, chains, k, i);
    forall u | u in W.dyn
      ensures u != x
    {
      LinkLoose(m, W, T, chains, x, u);
    }
    var s := Inserted(chains, k, i, t);
    forall l | 0 <= l < |s|
      ensures IsChain(n, W, T.oblist + l, s[l])
    {
      if l == k {
        forall p, q | 0 <= p < q < |c|
          ensures c[p] != c[q]
        {
          assert chains[k][p] != chains[k][q];
        }
        assert t !in c;
        assert W.lo <= t;
        InsertOne(m, n, W, bin, c, i, t);
      } else {
        assert LinkOf(bin, c, x);
        ChainsApart(m, W, T.oblist, chains, k, l, x);
        assert IsChain(m, W, T.oblist + l, chains[l]);
        InsertOther(m, n, W, T.oblist + l, chains[l], x, t);
      }
    }
    InsertApart(chains, k, i, t);
  }

  lemma SpotOf(m: seq<Descr>, W: World, T: Tables, chains: seq<seq<int>>, k: int, i: int)
    requires Sound(m, W, T, chains) && 0 <= k < |chains| && 0 <= i <= |chains[k]|
    ensures LinkSpot(m, W, T, LinkCell(T.oblist + k, chains[k], i))
  {
    hide BaseOk, Placed, Homed, Apart;
    assert IsChain(m, W, T.oblist + k, chains[k]);
    assert i > 0 ==> ChainString(m, W, chains[k][i - 1]);
    if i > 0 {
      var t := chains[k][i - 1];
      assert t in W.dyn && 0 < t < |m| && m[t].sttl;
    }
  }

  lemma LinkSetString(m: seq<Descr>, n: seq<Descr>, x: int, a: int, t: int)
    requires LinkSet(m, n, x, a)
    ensures SameString(m, t, n, t)
  {
    if 0 <= t < |m| && m[t].v >= 0 {
      var r, s := Chars(n, t + LNKFLD + 1, m[t].v), Chars(m, t + LNKFLD + 1, m[t].v);
      assert r == s;
    }
  }

  /** Place i of chain k is where the string s belongs. */
  ghost predicate Between(m: seq<Descr>, h: Hash, c: seq<int>, i: int, s: string) {
    && 0 <= i <= |c|
    && (forall j :: 0 <= j < i ==> Precedes(m, h, c[j], s))
    && (i < |c| ==> Order(m, c[i]) > h.ord(s))
  }

  ghost predicate Precedes(m: seq<Descr>, h: Hash, t: int, s: string) {
    Order(m, t) <= h.ord(s) && Text(m, t) != s
  }

  lemma BeforeOrder(m: seq<Descr>, h: Hash, k: int, c: seq<int>, i: int, s: string, j: int)
    requires Filing(m, h, k, c) && Between(m, h, c, i, s) && 0 <= j < |c|
    ensures j < i ==> Precedes(m, h, c[j], s)
    ensures j >= i ==> Order(m, c[j]) > h.ord(s) && Text(m, c[j]) != s
  {
    hide Text, Order;
    if j >= i {
      assert j > i ==> InOrder(m, c[i], c[j]);
      assert Filed(m, h, k, c[j]);
    }
  }

  /** A string that is not between its neighbours is not in the table. */
  lemma NotInTable(m: seq<Descr>, h: Hash, chains: seq<seq<int>>, i: int, s: string, l: int, j: int)
    requires Interned(m, h, chains) && 0 <= h.bin(s) < |chains| && Between(m, h, chains[h.bin(s)], i, s)
    requires 0 <= l < |chains| && 0 <= j < |chains[l]|
    ensures Text(m, chains[l][j]) != s
  {
    hide Text, Order, Between;
    assert Filing(m, h, l, chains[l]);
    assert Filed(m, h, l, chains[l][j]);
    if l == h.bin(s) {
      BeforeOrder(m, h, l, chains[l], i, s, j);
    }
  }

  lemma InsertFiling(m: seq<Descr>, n: seq<Descr>, h: Hash, k: int, c: seq<int>, i: int, t: int, x: int, a: int)
    requires Filing(m, h, k, c) && Filed(m, h, k, t) && Between(m, h, c, i, Text(m, t)) && LinkSet(m, n, x, a)
    ensures Filing(n, h, k, c[..i] + [t] + c[i..])
  {
    hide Text, Order, LinkSet;
    assert 0 <= i <= |c|;
    var d := c[..i] + [t] + c[i..];
    forall j | 0 <= j < |d|
      ensures Filed(n, h, k, d[j])
    {
      LinkSetString(m, n, x, a, d[j]);
      if j != i {
        assert Filed(m, h, k, c[if j < i then j else j - 1]);
      }
    }
    forall p, q | 0 <= p < q < |d|
      ensures InOrder(n, d[p], d[q])
    {
      LinkSetString(m, n, x, a, d[p]);
      LinkSetString(m, n, x, a, d[q]);
      if p == i {
        BeforeOrder(m, h, k, c, i, Text(m, t), q - 1);
      } else if q == i {
        BeforeOrder(m, h, k, c, i, Text(m, t), p);
      } else {
        assert InOrder(m, c[if p < i then p else p - 1], c[if q < i then q else q - 1]);
      }
    }
  }

  /** The table of strings stays in order when a new one is put in its place. */
  lemma InsertInterned(m: seq<Descr>, n: seq<Descr>, h: Hash, chains: seq<seq<int>>, k: int, i: int, t: int, x: int, a: int)
    requires Interned(m, h, chains) && 0 <= k < |chains| && 0 <= i <= |chains[k]|
    requires Filed(m, h, k, t) && Between(m, h, chains[k], i, Text(m, t)) && LinkSet(m, n, x, a)
    ensures Interned(n, h, Inserted(chains, k, i, t))
  {
    hide Filed, Between, LinkSet, Text;
    var s := Inserted(chains, k, i, t);
    forall l | 0 <= l < |s|
      ensures Filing(n, h, l, s[l])
    {
      assert Filing(m, h, l, chains[l]);
      if l == k {
        InsertFiling(m, n, h, k, chains[k], i, t, x, a);
      } else {
        OtherFiling(m, n, h, l, chains[l], x, a);
      }
    }
  }

  lemma OtherFiling(m: seq<Descr>, n: seq<Descr>, h: Hash, l: int, c: seq<int>, x: int, a: int)
    requires Filing(m, h, l, c) && LinkSet(m, n, x, a)
    ensures Filing(n, h, l, c)
  {
    hide Text, Order, LinkSet;
    forall j | 0 <= j < |c|
      ensures Filed(n, h, l, c[j])
    {
      assert Filed(m, h, l, c[j]);
      LinkSetString(m, n, x, a, c[j]);
    }
    forall p, q | 0 <= p < q < |c|
      ensures InOrder(n, c[p], c[q])
    {
      assert InOrder(m, c[p], c[q]);
      LinkSetString(m, n, x, a, c[p]);
      LinkSetString(m, n, x, a, c[q]);
    }
  }

  // ------------------------------------------------------------ the new string

  /** n is m with the string s laid out at address at, before it is linked. */
  ghost predicate Laid(m: seq<Descr>, n: seq<Descr>, W: World, at: int, s: string, ord: int, link: int) {
    && |n| == |m| && 0 < at < |n| && |s| >= 1 && at + LNKFLD + 1 + (|s| - 1) / CPD + 1 <= |n|
    && n[..at] == m[..at]
    && n[at] == ZEROCL.(a := at, ttl := true, sttl := true, v := |s|)
    && !n[at + 1].ttl && PtrOk(m, W, n[at + 1]) && !n[at + ATTRIB].ttl && PtrOk(m, W, n[at + ATTRIB])
    && n[at + LNKFLD].a == link && n[at + LNKFLD].v == ord
    && Chars(n, at + LNKFLD + 1, |s|) == s
  }

  lemma LaidAdded(m: seq<Descr>, n: seq<Descr>, W: World, s: string, ord: int, link: int)
    requires Tiled(m, W) && Laid(m, n, W, W.hi, s, ord, link)
    ensures Added(m, n, W) && Text(n, W.hi) == s && Order(n, W.hi) == ord
    ensures BkSize(n[W.hi]) == LNKFLD + 1 + (|s| - 1) / CPD + 1
  {
    hide PtrOk, Chars;
  }

  lemma LaidString(m: seq<Descr>, n: seq<Descr>, W: World, s: string, ord: int, link: int)
    requires Tiled(m, W) && Laid(m, n, W, W.hi, s, ord, link)
    ensures ChainString(n, Longer(W, BkSize(n[W.hi])), W.hi)
  {
    hide PtrOk, Chars;
  }

  /** The whole insertion: from storage m, by way of n with the string laid out
      but not yet linked, to r. */
  lemma InsertAll(m: seq<Descr>, n: seq<Descr>, r: seq<Descr>, W: World, T: Tables, h: Hash, chains: seq<seq<int>>,
                  i: int, s: string)
    requires Sound(m, W, T, chains) && Interned(m, h, chains) && 0 <= h.bin(s) < |chains|
    requires Between(m, h, chains[h.bin(s)], i, s) && s != ""
    requires Laid(m, n, W, W.hi, s, h.ord(s), if i < |chains[h.bin(s)]| then chains[h.bin(s)][i] else 0)
    requires LinkSet(n, r, LinkCell(T.oblist + h.bin(s), chains[h.bin(s)], i), W.hi)
    ensures var W1, chains1 := Longer(W, BkSize(n[W.hi])), Inserted(chains, h.bin(s), i, W.hi);
            && Sound(r, W1, T, chains1) && Interned(r, h, chains1) && Text(r, W.hi) == s && Bases(r, T) == Bases(m, T)
  {
    hide Added, Bases, BkSize, BlockOk, ChainString, Chained, Chars, Fresh, Homed, Interned, LinkCell, LinkSet,
      LinkSpot, Longer, Order, Permanent, Placed, Precedes, PtrOk, Scratch, Sound, Text, Tiled;
    var k := h.bin(s);
    var c, t, W1, x := chains[k], W.hi, Longer(W, BkSize(n[W.hi])), LinkCell(T.oblist + k, chains[k], i);
    SoundBase(m, W, T, chains);
    LaidAdded(m, n, W, s, h.ord(s), if i < |c| then c[i] else 0);
    LaidString(m, n, W, s, h.ord(s), if i < |c| then c[i] else 0);
    AddedSound(m, n, W, T, chains);
    AddedInterned(m, n, W, T, chains, h);
    BetweenAdded(m, n, W, T, h, chains, k, i, s);
    FreshNow(m, n, W, T, chains, k, i);
    InsertChained(n, r, W1, T, chains, k, i, t);
    assert |Inserted(chains, k, i, t)| == |chains|;
    LinkSetSound(n, r, W1, T, chains, Inserted(chains, k, i, t), x, t);
    assert Filed(n, h, k, t);
    assert 0 <= i <= |c|;
    InsertInterned(n, r, h, chains, k, i, t, x, t);
    LinkSetString(n, r, x, t, t);
  }

  lemma BetweenAdded(m: seq<Descr>, n: seq<Descr>, W: World, T: Tables, h: Hash, chains: seq<seq<int>>, k: int, i: int, s: string)
    requires Sound(m, W, T, chains) && Added(m, n, W) && 0 <= k < |chains| && Between(m, h, chains[k], i, s)
    ensures Between(n, h, chains[k], i, s)
  {
    hide Sound, Added, Text, Order, Tiled, Permanent, Placed;
    SoundBase(m, W, T, chains);
    forall j | 0 <= j < |chains[k]|
      ensures SameString(m, chains[k][j], n, chains[k][j])
    {
      InChain(m, W, T.oblist, chains, k, j);
      AddedString(m, n, W, chains[k][j]);
    }
    forall j | 0 <= j < i
      ensures Precedes(n, h, chains[k][j], s)
    {
      assert Precedes(m, h, chains[k][j], s);
    }
  }

  lemma FreshNow(m: seq<Descr>, n: seq<Descr>, W: World, T: Tables, chains: seq<seq<int>>, k: int, i: int)
    requires Sound(m, W, T, chains) && Added(m, n, W) && 0 <= k < |chains| && 0 <= i <= |chains[k]|
    requires ChainString(n, Longer(W, BkSize(n[W.hi])), W.hi) && n[W.hi + LNKFLD].a == if i < |chains[k]| then chains[k][i] else 0
    ensures Fresh(n, Longer(W, BkSize(n[W.hi])), T.oblist, chains, k, i, W.hi)
  {
    hide Sound, Added, Tiled, Permanent, Placed, IsChain;
    SoundBase(m, W, T, chains);
    forall l, j | 0 <= l < |chains| && 0 <= j < |chains[l]|
      ensures chains[l][j] != W.hi
    {
      InChain(m, W, T.oblist, chains, l, j);
    }
  }
}
