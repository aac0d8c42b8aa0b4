/** The hash chains after a collection: strings that go are taken out, and
    links hold the new addresses of those that stay. */
module Relinking {
  import opened Heap
  import opened Roots
  import opened Forwarding

  /** The hash chains: what is linked from each bin, no string twice. */
  ghost predicate Chained(m: seq<Descr>, W: World, oblist: int, chains: seq<seq<int>>) {
    && (forall k :: 0 <= k < |chains| ==> IsChain(m, W, oblist + k, chains[k]))
    && Apart(chains)
  }

  ghost predicate Apart(chains: seq<seq<int>>) {
    forall k, i, l, j ::
      (0 <= k < |chains| && 0 <= i < |chains[k]| && 0 <= l < |chains| && 0 <= j < |chains[l]|
       && chains[k][i] == chains[l][j]) ==> (k == l && i == j)
  }

  /** The cells that hold the links of a chain. */
  ghost predicate LinkOf(bin: int, c: seq<int>, x: int) {
    exists j :: 0 <= j <= |c| && LinkCell(bin, c, j) == x
  }

  ghost predicate Alive(m: seq<Descr>, t: int) {
    0 < t < |m| && m[t].mark
  }

  /** The new address of the first marked string from place i on, or 0. */
  ghost function NextKept(m: seq<Descr>, W: World, c: seq<int>, i: int): (a: int)
    requires 0 <= i <= |c|
    decreases |c| - i
  {
    if i == |c| then 0 else if Alive(m, c[i]) then NewHome(m, W, c[i]) else NextKept(m, W, c, i + 1)
  }

  /** Link j is as wanted if it is one of the first p and its string stays;
      otherwise it is as in n0. */
  ghost predicate RelinkAt(m: seq<Descr>, n0: seq<Descr>, n: seq<Descr>, W: World, bin: int, c: seq<int>, j: int, p: int)
    requires 0 <= j <= |c|
  {
    var x := LinkCell(bin, c, j);
    && 0 <= x < |n0| == |n|
    && n[x] == if j < p && (j == 0 || Alive(m, c[j - 1])) then n0[x].(a := NextKept(m, W, c, j)) else n0[x]
  }

  ghost predicate Relinks(m: seq<Descr>, n0: seq<Descr>, n: seq<Descr>, W: World, bin: int, c: seq<int>, p: int) {
    |n| == |n0| && forall j :: 0 <= j <= |c| ==> RelinkAt(m, n0, n, W, bin, c, j, p)
  }

  /** Only links of the chain differ. */
  ghost predicate OnlyLinks(n0: seq<Descr>, n: seq<Descr>, bin: int, c: seq<int>) {
    |n| == |n0| && forall x :: 0 <= x < |n| ==> n[x] == n0[x] || LinkOf(bin, c, x)
  }

  /** No marked string from place p to place i. */
  ghost predicate NoneKept(m: seq<Descr>, c: seq<int>, p: int, i: int) {
    0 <= p <= i <= |c| && forall j :: p <= j < i ==> !Alive(m, c[j])
  }

  // -------------------------------------------------------------- one chain

  lemma {:induction false} NextKeptSkip(m: seq<Descr>, W: World, c: seq<int>, p: int, i: int)
    requires NoneKept(m, c, p, i)
    ensures NextKept(m, W, c, p) == NextKept(m, W, c, i)
    decreases i - p
  {
    if p < i {
      NextKeptSkip(m, W, c, p + 1, i);
    }
  }

  /** The memory in which a chain is relinked: n0 is the marked memory m with
      new addresses in the titles. */
  ghost predicate Relinkable(m: seq<Descr>, n0: seq<Descr>, W: World, bin: int, c: seq<int>) {
    && Tiled(m, W) && Headed(m, n0, W) && IsChain(n0, W, bin, c)
    && forall i, j :: 0 <= i < |c| && 0 <= j < |c| && c[i] == c[j] ==> i == j
  }

  lemma CellsDiffer(m: seq<Descr>, n0: seq<Descr>, W: World, bin: int, c: seq<int>, i: int, j: int)
    requires Relinkable(m, n0, W, bin, c) && 0 <= i <= |c| && 0 <= j <= |c| && i != j
    ensures LinkCell(bin, c, i) != LinkCell(bin, c, j)
  {
    assert i > 0 ==> ChainString(n0, W, c[i - 1]);
    assert j > 0 ==> ChainString(n0, W, c[j - 1]);
  }

  lemma RelinksNone(m: seq<Descr>, n0: seq<Descr>, W: World, bin: int, c: seq<int>)
    requires Relinkable(m, n0, W, bin, c)
    ensures Relinks(m, n0, n0, W, bin, c, 0) && OnlyLinks(n0, n0, bin, c)
  {
    forall j | 0 <= j <= |c|
      ensures RelinkAt(m, n0, n0, W, bin, c, j, 0)
    {
      assert LinkAt(n0, bin, c, j);
    }
  }

  /** The next marked string is linked to the last one before it. */
  lemma RelinksNext(m: seq<Descr>, n0: seq<Descr>, n: seq<Descr>, n': seq<Descr>, W: World, bin: int, c: seq<int>, p: int, i: int)
    requires Relinkable(m, n0, W, bin, c) && Relinks(m, n0, n, W, bin, c, p) && OnlyLinks(n0, n, bin, c)
    requires NoneKept(m, c, p, i) && (i < |c| ==> Alive(m, c[i])) && (p == 0 || Alive(m, c[p - 1]))
    requires 0 <= LinkCell(bin, c, p) < |n|
    requires n' == n[LinkCell(bin, c, p) := n[LinkCell(bin, c, p)].(a := NextKept(m, W, c, i))]
    ensures Relinks(m, n0, n', W, bin, c, i + 1) && OnlyLinks(n0, n', bin, c)
  {
    hide Relinkable, Alive, LinkCell, NextKept;
    NextKeptSkip(m, W, c, p, i);
    var next := i + 1;
    forall j | 0 <= j <= |c|
      ensures RelinkAt(m, n0, n', W, bin, c, j, next)
    {
      assert RelinkAt(m, n0, n, W, bin, c, j, p);
      if j != p {
        CellsDiffer(m, n0, W, bin, c, j, p);
        assert p < j <= i ==> !Alive(m, c[j - 1]);
      }
    }
    assert LinkOf(bin, c, LinkCell(bin, c, p));
  }

  /** Reading link i, which has not been touched yet. */
  lemma RelinkLook(m: seq<Descr>, n0: seq<Descr>, n: seq<Descr>, W: World, bin: int, c: seq<int>, p: int, i: int)
    requires Relinkable(m, n0, W, bin, c) && Relinks(m, n0, n, W, bin, c, p) && OnlyLinks(n0, n, bin, c)
    requires 0 <= p <= i <= |c|
    ensures 0 < LinkCell(bin, c, i) < |n| && n[LinkCell(bin, c, i)].a == if i < |c| then c[i] else 0
    ensures 0 < LinkCell(bin, c, p) < |n|
    ensures i < |c| ==> 0 < c[i] < |n| == |m| && (n[c[i]].mark <==> Alive(m, c[i]))
    ensures i < |c| && Alive(m, c[i]) ==> n[c[i]].a == NextKept(m, W, c, i)
  {
    assert RelinkAt(m, n0, n, W, bin, c, i, p);
    assert LinkAt(n0, bin, c, i) && LinkAt(n0, bin, c, p);
    if i < |c| {
      StringTitle(m, n0, n, W, bin, c, i);
    }
  }

  lemma StringTitle(m: seq<Descr>, n0: seq<Descr>, n: seq<Descr>, W: World, bin: int, c: seq<int>, i: int)
    requires Relinkable(m, n0, W, bin, c) && OnlyLinks(n0, n, bin, c) && 0 <= i < |c|
    ensures 0 < c[i] < |n| == |m| && (n[c[i]].mark <==> Alive(m, c[i]))
    ensures Alive(m, c[i]) ==> n[c[i]].a == NewHome(m, W, c[i])
  {
    hide NewHome, Room, Relinkable, Alive;
    StringForwarded(m, n0, W, bin, c, i);
    forall j | 0 <= j <= |c|
      ensures LinkCell(bin, c, j) != c[i]
    {
      NoLinkAtTitle(m, n0, W, bin, c, j, c[i]);
    }
    assert !LinkOf(bin, c, c[i]);
  }

  lemma NoLinkAtTitle(m: seq<Descr>, n0: seq<Descr>, W: World, bin: int, c: seq<int>, j: int, t: int)
    requires Relinkable(m, n0, W, bin, c) && 0 <= j <= |c| && t in W.dyn
    ensures LinkCell(bin, c, j) != t
  {
    if j > 0 {
      assert ChainString(n0, W, c[j - 1]);
      var k :| 0 <= k < |W.dyn| && W.dyn[k] == c[j - 1];
      assert FwdAt(m, n0, W, k, |W.dyn|) && BlockAt(m, W, k);
      if t > c[j - 1] {
        Inside(m, W, k, t);
      }
    } else {
      DynTitle(m, W, t);
    }
  }

  lemma StringForwarded(m: seq<Descr>, n0: seq<Descr>, W: World, bin: int, c: seq<int>, i: int)
    requires Relinkable(m, n0, W, bin, c) && 0 <= i < |c|
    ensures 0 < c[i] < |n0| == |m| && c[i] in W.dyn && (n0[c[i]].mark <==> Alive(m, c[i]))
    ensures Alive(m, c[i]) ==> n0[c[i]].a == NewHome(m, W, c[i])
  {
    hide NewHome, Room;
    assert ChainString(n0, W, c[i]);
    var k :| 0 <= k < |W.dyn| && W.dyn[k] == c[i];
    assert FwdAt(m, n0, W, k, |W.dyn|);
    HomeIs(m, W, k);
  }

  // -------------------------------------------------------------- all chains

  /** x is a link of one of the first k chains. */
  ghost predicate LinkAmong(oblist: int, chains: seq<seq<int>>, k: int, x: int)
    requires 0 <= k <= |chains|
  {
    exists l :: 0 <= l < k && LinkOf(oblist + l, chains[l], x)
  }

  ghost predicate ChainRelinked(m: seq<Descr>, n0: seq<Descr>, n: seq<Descr>, W: World, oblist: int, chains: seq<seq<int>>, l: int)
    requires 0 <= l < |chains|
  {
    Relinks(m, n0, n, W, oblist + l, chains[l], |chains[l]| + 1)
  }

  /** The first k chains have been relinked and nothing else has changed. */
  ghost predicate Relinked(m: seq<Descr>, n0: seq<Descr>, n: seq<Descr>, W: World, oblist: int, chains: seq<seq<int>>, k: int) {
    && 0 <= k <= |chains| && |n| == |n0|
    && (forall l :: 0 <= l < k ==> ChainRelinked(m, n0, n, W, oblist, chains, l))
    && (forall x :: 0 <= x < |n| ==> n[x] == n0[x] || LinkAmong(oblist, chains, k, x))
  }

  lemma RelinkedNone(m: seq<Descr>, n0: seq<Descr>, W: World, oblist: int, chains: seq<seq<int>>)
    ensures Relinked(m, n0, n0, W, oblist, chains, 0)
  {
  }

  lemma ChainsApart(n0: seq<Descr>, W: World, oblist: int, chains: seq<seq<int>>, k: int, l: int, x: int)
    requires Chained(n0, W, oblist, chains) && 0 <= k < |chains| && 0 <= l < |chains| && k != l
    requires LinkOf(oblist + k, chains[k], x)
    ensures !LinkOf(oblist + l, chains[l], x)
  {
    var bin, c := oblist + l, chains[l];
    var i :| 0 <= i <= |chains[k]| && LinkCell(oblist + k, chains[k], i) == x;
    forall j | 0 <= j <= |c|
      ensures LinkCell(bin, c, j) != x
    {
      LinksApart(n0, W, oblist, chains, k, l, i, j);
    }
  }

  lemma LinksApart(n0: seq<Descr>, W: World, oblist: int, chains: seq<seq<int>>, k: int, l: int, i: int, j: int)
    requires Chained(n0, W, oblist, chains) && 0 <= k < |chains| && 0 <= l < |chains| && k != l
    requires 0 <= i <= |chains[k]| && 0 <= j <= |chains[l]|
    ensures LinkCell(oblist + k, chains[k], i) != LinkCell(oblist + l, chains[l], j)
  {
    assert IsChain(n0, W, oblist + k, chains[k]) && IsChain(n0, W, oblist + l, chains[l]);
    assert i > 0 ==> ChainString(n0, W, chains[k][i - 1]);
    assert j > 0 ==> ChainString(n0, W, chains[l][j - 1]);
    assert i > 0 && j > 0 ==> chains[k][i - 1] != chains[l][j - 1];
  }

  /** No link is a title. */
  lemma NoLinkIsTitle(m: seq<Descr>, n0: seq<Descr>, W: World, oblist: int, chains: seq<seq<int>>, l: int, t: int)
    requires Tiled(m, W) && Headed(m, n0, W) && Chained(n0, W, oblist, chains) && 0 <= l < |chains| && t in W.dyn
    ensures !LinkOf(oblist + l, chains[l], t)
  {
    assert IsChain(n0, W, oblist + l, chains[l]);
    var bin, c := oblist + l, chains[l];
    forall i, j | 0 <= i < |c| && 0 <= j < |c| && c[i] == c[j]
      ensures i == j
    {
      assert chains[l][i] == chains[l][j];
    }
    forall j | 0 <= j <= |c|
      ensures LinkCell(bin, c, j) != t
    {
      NoLinkAtTitle(m, n0, W, bin, c, j, t);
    }
  }

  lemma HeadedStill(m: seq<Descr>, n0: seq<Descr>, n: seq<Descr>, W: World, oblist: int, chains: seq<seq<int>>, k: int)
    requires Tiled(m, W) && Headed(m, n0, W) && Chained(n0, W, oblist, chains) && Relinked(m, n0, n, W, oblist, chains, k)
    ensures Headed(m, n, W)
  {
    hide Tiled, Chained, Room, LinkOf;
    forall i | 0 <= i < |W.dyn|
      ensures FwdAt(m, n, W, i, |W.dyn|)
    {
      var t := W.dyn[i];
      assert FwdAt(m, n0, W, i, |W.dyn|);
      forall l | 0 <= l < k
        ensures !LinkOf(oblist + l, chains[l], t)
      {
        NoLinkIsTitle(m, n0, W, oblist, chains, l, t);
      }
      assert !LinkAmong(oblist, chains, k, t);
    }
  }

  /** Chain k can be relinked when those before it have been. */
  lemma RelinkableNext(m: seq<Descr>, n0: seq<Descr>, n: seq<Descr>, W: World, oblist: int, chains: seq<seq<int>>, k: int)
    requires Tiled(m, W) && Headed(m, n0, W) && Chained(n0, W, oblist, chains) && Relinked(m, n0, n, W, oblist, chains, k)
    requires k < |chains|
    ensures Relinkable(m, n, W, oblist + k, chains[k])
  {
    HeadedStill(m, n0, n, W, oblist, chains, k);
    var bin, c := oblist + k, chains[k];
    assert IsChain(n0, W, bin, c);
    forall i | 0 <= i < |c|
      ensures ChainString(n, W, c[i])
    {
      assert ChainString(n0, W, c[i]);
      var j :| 0 <= j < |W.dyn| && W.dyn[j] == c[i];
      assert FwdAt(m, n, W, j, |W.dyn|) && FwdAt(m, n0, W, j, |W.dyn|);
    }
    forall i | 0 <= i <= |c|
      ensures LinkAt(n, bin, c, i)
    {
      assert LinkAt(n0, bin, c, i);
      UntouchedLink(m, n0, n, W, oblist, chains, k, LinkCell(bin, c, i));
    }
    forall i, j | 0 <= i < |c| && 0 <= j < |c| && c[i] == c[j]
      ensures i == j
    {
      assert chains[k][i] == chains[k][j];
    }
  }

  lemma UntouchedLink(m: seq<Descr>, n0: seq<Descr>, n: seq<Descr>, W: World, oblist: int, chains: seq<seq<int>>, k: int, x: int)
    requires Chained(n0, W, oblist, chains) && Relinked(m, n0, n, W, oblist, chains, k) && k < |chains|
    requires LinkOf(oblist + k, chains[k], x) && 0 <= x < |n|
    ensures n[x] == n0[x]
  {
    hide Chained, LinkOf;
    forall l | 0 <= l < k
      ensures !LinkOf(oblist + l, chains[l], x)
    {
      ChainsApart(n0, W, oblist, chains, k, l, x);
    }
    assert !LinkAmong(oblist, chains, k, x);
  }

  lemma RelinkedNext(m: seq<Descr>, n0: seq<Descr>, n: seq<Descr>, n': seq<Descr>, W: World, oblist: int, chains: seq<seq<int>>, k: int)
    requires Chained(n0, W, oblist, chains) && Relinked(m, n0, n, W, oblist, chains, k) && k < |chains|
    requires Relinks(m, n, n', W, oblist + k, chains[k], |chains[k]| + 1) && OnlyLinks(n, n', oblist + k, chains[k])
    ensures Relinked(m, n0, n', W, oblist, chains, k + 1)
  {
    hide Chained, NextKept, Alive;
    var bin, c, all := oblist + k, chains[k], |chains[k]| + 1;
    forall j | 0 <= j <= |c|
      ensures RelinkAt(m, n0, n', W, bin, c, j, all)
    {
      assert RelinkAt(m, n, n', W, bin, c, j, all);
      var x := LinkCell(bin, c, j);
      assert LinkOf(bin, c, x);
      UntouchedLink(m, n0, n, W, oblist, chains, k, x);
    }
    forall l | 0 <= l < k
      ensures ChainRelinked(m, n0, n', W, oblist, chains, l)
    {
      assert ChainRelinked(m, n0, n, W, oblist, chains, l);
      RelinkedStill(m, n0, n, n', W, oblist, chains, k, l);
    }
    forall x | 0 <= x < |n'|
      ensures n'[x] == n0[x] || LinkAmong(oblist, chains, k + 1, x)
    {
      if n[x] != n0[x] {
        assert LinkAmong(oblist, chains, k, x);
        var l :| 0 <= l < k && LinkOf(oblist + l, chains[l], x);
      }
    }
  }

  lemma RelinkedStill(m: seq<Descr>, n0: seq<Descr>, n: seq<Descr>, n': seq<Descr>, W: World, oblist: int, chains: seq<seq<int>>, k: int, l: int)
    requires Chained(n0, W, oblist, chains) && 0 <= l < k < |chains|
    requires ChainRelinked(m, n0, n, W, oblist, chains, l) && OnlyLinks(n, n', oblist + k, chains[k])
    ensures ChainRelinked(m, n0, n', W, oblist, chains, l)
  {
    hide Chained, NextKept, Alive;
    var bin, c, all := oblist + l, chains[l], |chains[l]| + 1;
    forall j | 0 <= j <= |c|
      ensures RelinkAt(m, n0, n', W, bin, c, j, all)
    {
      assert RelinkAt(m, n0, n, W, bin, c, j, all);
      var x := LinkCell(bin, c, j);
      assert LinkOf(bin, c, x);
      ChainsApart(n0, W, oblist, chains, l, k, x);
    }
  }
}
