/** Finite directed graphs: walks, cycles, and what a depth-first search that
    prunes dead ends may conclude.  Nodes are numbered from 0. */
module Digraph {
  import opened Sequences

  /** For each node the nodes its arcs lead to, in order. */
  type Arcs = seq<seq<int>>

  predicate IsNode(G: Arcs, n: int) {
    0 <= n < |G|
  }

  predicate Arc(G: Arcs, u: int, v: int) {
    IsNode(G, u) && IsNode(G, v) && v in G[u]
  }

  ghost predicate Walk(G: Arcs, p: seq<int>) {
    |p| > 0 && IsNode(G, p[0]) && forall i, j :: 0 <= i && j == i + 1 && j < |p| ==> Arc(G, p[i], p[j])
  }

  /** n can be left and come back to along arcs. */
  ghost predicate OnCycle(G: Arcs, n: int) {
    exists p :: Walk(G, p) && |p| >= 2 && p[0] == n && p[|p| - 1] == n
  }

  /** The nodes c after n, in the order of a cycle that leads back to n. */
  ghost predicate SimpleCycle(G: Arcs, n: int, c: seq<int>) {
    Walk(G, [n] + c) && c != [] && c[|c| - 1] == n && Distinct(c)
  }

  /** Arcs lead to other nodes of the graph, and no two to the same. */
  ghost predicate Proper(G: Arcs) {
    forall u :: IsNode(G, u) ==> ProperNode(G, u)
  }

  ghost predicate ProperNode(G: Arcs, u: int)
    requires IsNode(G, u)
  {
    Distinct(G[u]) && u !in G[u] && forall v :: v in G[u] ==> IsNode(G, v)
  }

  /** The nodes with arcs to v. */
  ghost function Into(G: Arcs, v: int): (s: set<int>) {
    set u | 0 <= u < |G| && v in G[u]
  }

  /** The nodes that have arcs. */
  ghost function Busy(G: Arcs): (s: set<int>) {
    set u | 0 <= u < |G| && G[u] != []
  }

  // -------------------------------------------------------------------- counting

  lemma {:induction false} DistinctSize(p: seq<int>, s: set<int>)
    requires Distinct(p) && forall x :: x in p ==> x in s
    ensures |p| <= |s|
    decreases |p|
  {
    if p != [] {
      var x := p[|p| - 1];
      forall y | y in p[..|p| - 1]
        ensures y in s - {x}
      {
      }
      DistinctSize(p[..|p| - 1], s - {x});
    }
  }

  lemma {:induction false} FirstNumbers(n: int) returns (s: set<int>)
    requires 0 <= n
    ensures |s| == n && forall x :: x in s <==> 0 <= x < n
    decreases n
  {
    s := {};
    if n > 0 {
      var r := FirstNumbers(n - 1);
      s := r + {n - 1};
    }
  }

  /** Taking away a node's arcs. */
  lemma IntoWithout(G: Arcs, n: int, v: int)
    requires IsNode(G, n)
    ensures |Into(G[n := []], v)| == |Into(G, v)| - if v in G[n] then 1 else 0
  {
    assert Into(G[n := []], v) == Into(G, v) - {n};
  }

  /** One more arc. */
  lemma IntoWith(G: Arcs, n: int, w: int, v: int)
    requires IsNode(G, n) && w !in G[n]
    ensures |Into(G[n := G[n] + [w]], v)| == |Into(G, v)| + if v == w then 1 else 0
  {
    if v == w {
      assert Into(G[n := G[n] + [w]], v) == Into(G, v) + {n};
    } else {
      assert Into(G[n := G[n] + [w]], v) == Into(G, v);
    }
  }

  // ---------------------------------------------------------------------- cycles

  lemma Extended(G: Arcs, u: int, p: seq<int>)
    requires Walk(G, p) && Arc(G, u, p[0])
    ensures Walk(G, [u] + p)
    ensures Distinct(p) && u !in p ==> Distinct([u] + p)
  {
    var q := [u] + p;
    assert forall i :: 0 < i < |q| ==> q[i] == p[i - 1];
  }

  lemma ClosedUp(G: Arcs, u: int, p: seq<int>, k: int)
    requires Walk(G, p) && Arc(G, u, p[0]) && 0 <= k < |p| && p[k] == u
    ensures OnCycle(G, u)
  {
    var c := p[..k + 1];
    assert Walk(G, c);
    Extended(G, u, c);
    assert ([u] + c)[|[u] + c| - 1] == u;
  }

  /** Some node of S has an arc to v. */
  ghost predicate Led(G: Arcs, S: set<int>, v: int) {
    exists u :: u in S && Arc(G, u, v)
  }

  lemma Leader(G: Arcs, S: set<int>, v: int) returns (u: int)
    requires Led(G, S, v)
    ensures u in S && Arc(G, u, v)
  {
    u :| u in S && Arc(G, u, v);
  }

  /** If every node of a set has a predecessor in it, following predecessors
      from any of them comes to a cycle. */
  lemma {:induction false} SomeCycle(G: Arcs, S: set<int>, p: seq<int>) returns (n: int)
    requires forall v :: v in S ==> Led(G, S, v)
    requires Walk(G, p) && Distinct(p) && forall x :: x in p ==> x in S
    ensures n in S && OnCycle(G, n)
    decreases |S| - |p|
  {
    hide Distinct, OnCycle, Arc, Led;
    assert p != [];
    var u := Leader(G, S, p[0]);
    if u in p {
      var k :| 0 <= k < |p| && p[k] == u;
      ClosedUp(G, u, p, k);
      n := u;
    } else {
      Extended(G, u, p);
      DistinctSize([u] + p, S);
      n := SomeCycle(G, S, [u] + p);
    }
  }

  /** A cycle may be walked from any of its nodes. */
  lemma Rotated(G: Arcs, p: seq<int>, k: int)
    requires Walk(G, p) && |p| >= 2 && p[0] == p[|p| - 1] && 0 <= k < |p|
    ensures OnCycle(G, p[k])
  {
    if 0 < k < |p| - 1 {
      var q := p[k..] + p[1..k + 1];
      forall i, j | 0 <= i && j == i + 1 && j < |q|
        ensures Arc(G, q[i], q[j])
      {
        RotatedArc(G, p, k, i);
      }
      assert Arc(G, p[k], p[k + 1]);
      assert Walk(G, q) && q[0] == p[k] && q[|q| - 1] == p[k];
    }
  }

  lemma RotatedArc(G: Arcs, p: seq<int>, k: int, i: int)
    requires Walk(G, p) && |p| >= 2 && p[0] == p[|p| - 1] && 0 < k < |p| - 1 && 0 <= i < |p| - 1
    ensures var q := p[k..] + p[1..k + 1]; Arc(G, q[i], q[i + 1])
  {
    var a := if i < |p| - k - 1 then k + i else i - (|p| - k) + 1;
    assert Arc(G, p[a], p[a + 1]);
  }

  lemma CycleOnCycle(G: Arcs, n: int, c: seq<int>)
    requires SimpleCycle(G, n, c)
    ensures OnCycle(G, n)
  {
    var p := [n] + c;
    assert p[|p| - 1] == n;
  }

  /** H has no arcs that G has not. */
  ghost predicate Fewer(G: Arcs, H: Arcs) {
    |H| == |G| && forall u :: 0 <= u < |G| ==> H[u] == G[u] || H[u] == []
  }

  lemma FewerCycles(G: Arcs, H: Arcs, n: int)
    requires Fewer(G, H) && OnCycle(H, n)
    ensures OnCycle(G, n)
  {
    var p :| Walk(H, p) && |p| >= 2 && p[0] == n && p[|p| - 1] == n;
    assert Walk(G, p);
  }

  lemma FewerWalks(G: Arcs, H: Arcs, p: seq<int>)
    requires Fewer(G, H) && Walk(H, p)
    ensures Walk(G, p)
  {
  }

  // ------------------------------------------------------------------ the search

  /** The flags of the search: on the present path, a dead end, and known to lie
      on no cycle. */
  datatype Flags = Flags(mark: seq<bool>, nodest: seq<bool>, acyclic: seq<bool>)

  predicate Sized(G: Arcs, F: Flags) {
    |F.mark| == |F.nodest| == |F.acyclic| == |G|
  }

  /** While no cycle through to has been found: dead ends lead only to dead ends,
      to the present path, or to nodes known to lie on no cycle. */
  ghost predicate Pruned(G: Arcs, F: Flags, to: int)
    requires Sized(G, F)
  {
    forall u, v :: Arc(G, u, v) && F.nodest[u] ==> Idle(F, to, v)
  }

  predicate Idle(F: Flags, to: int, v: int)
    requires |F.mark| == |F.nodest| == |F.acyclic|
  {
    0 <= v < |F.mark| && v != to && (F.nodest[v] || F.mark[v] || F.acyclic[v])
  }

  /** The first k arcs of u lead nowhere new. */
  ghost predicate Looked(G: Arcs, F: Flags, to: int, u: int, k: int)
    requires Sized(G, F)
  {
    IsNode(G, u) && 0 <= k <= |G[u]| && forall i :: 0 <= i < k ==> Idle(F, to, G[u][i])
  }

  /** Nodes known to lie on no cycle do not. */
  ghost predicate Known(G: Arcs, acyclic: seq<bool>) {
    |acyclic| == |G| && forall a :: 0 <= a < |G| && acyclic[a] ==> !OnCycle(G, a)
  }

  /** If all that to leads to are dead ends, it lies on no cycle. */
  lemma NoCycle(G: Arcs, F: Flags, to: int)
    requires Sized(G, F) && IsNode(G, to) && Known(G, F.acyclic)
    requires Pruned(G, F, to) && F.nodest[to] && forall u :: 0 <= u < |G| ==> !F.mark[u]
    ensures !OnCycle(G, to)
  {
    if OnCycle(G, to) {
      var p :| Walk(G, p) && |p| >= 2 && p[0] == to && p[|p| - 1] == to;
      StaysDead(G, F, to, p, |p| - 1);
    }
  }

  lemma {:induction false} StaysDead(G: Arcs, F: Flags, to: int, p: seq<int>, i: int)
    requires Sized(G, F) && IsNode(G, to) && Known(G, F.acyclic)
    requires Pruned(G, F, to) && F.nodest[to] && forall u :: 0 <= u < |G| ==> !F.mark[u]
    requires Walk(G, p) && |p| >= 2 && p[0] == to && p[|p| - 1] == to && 0 <= i < |p|
    ensures IsNode(G, p[i]) && F.nodest[p[i]] && (i > 0 ==> p[i] != to)
    decreases i
  {
    if i > 0 {
      StaysDead(G, F, to, p, i - 1);
      assert Arc(G, p[i - 1], p[i]);
      Rotated(G, p, i);
    }
  }

  /** A path of the search: distinct nodes from to on, along arcs. */
  ghost predicate Path(G: Arcs, to: int, p: seq<int>) {
    Walk(G, p) && Distinct(p) && p[0] == to && forall x :: x in p ==> IsNode(G, x)
  }

  lemma PathNext(G: Arcs, to: int, p: seq<int>, v: int)
    requires Path(G, to, p) && Arc(G, p[|p| - 1], v) && v !in p
    ensures Path(G, to, p + [v])
  {
  }

  /** The path has led back to its first node. */
  lemma PathClosed(G: Arcs, to: int, p: seq<int>)
    requires Path(G, to, p) && Arc(G, p[|p| - 1], to)
    ensures SimpleCycle(G, to, p[1..] + [to])
  {
    var c := p[1..] + [to];
    assert [to] + c == p + [to];
  }

  /** All nodes of a path whose last one has arcs have some, so it is no longer
      than there are such nodes. */
  lemma PathLength(G: Arcs, to: int, p: seq<int>)
    requires Path(G, to, p)
    ensures |p| <= |G| && p[|p| - 1] in p && (G[p[|p| - 1]] != [] ==> |p| <= |Busy(G)|)
  {
    assert p[|p| - 1] in p;
    var all := FirstNumbers(|G|);
    DistinctSize(p, all);
    if G[p[|p| - 1]] != [] {
      forall x | x in p
        ensures x in Busy(G)
      {
        var i :| 0 <= i < |p| && p[i] == x;
        assert i + 1 < |p| ==> Arc(G, p[i], p[i + 1]);
      }
      DistinctSize(p, Busy(G));
    }
  }

  lemma PathLast(G: Arcs, to: int, p: seq<int>)
    requires Path(G, to, p)
    ensures p != [] && p[0] == to && IsNode(G, p[|p| - 1]) && IsNode(G, to)
    ensures forall x :: x in p <==> x in p[..|p| - 1] || x == p[|p| - 1]
    ensures p[|p| - 1] !in p[..|p| - 1]
  {
    assert p == p[..|p| - 1] + [p[|p| - 1]];
  }

  // ---------------------------------------------------- steps of the search

  /** Exactly the nodes of p are marked. */
  ghost predicate Marking(mark: seq<bool>, p: seq<int>) {
    forall x :: 0 <= x < |mark| ==> (mark[x] <==> x in p)
  }

  /** The search has come to the end of p and found nothing so far. */
  ghost predicate Futile(G: Arcs, F: Flags, to: int, len: int) {
    Sized(G, F) && (len == 0 ==> Pruned(G, F, to))
  }

  ghost predicate FutileAt(G: Arcs, F: Flags, to: int, len: int, u: int, k: int) {
    Sized(G, F) && (len == 0 ==> Pruned(G, F, to) && Looked(G, F, to, u, k))
  }

  ghost predicate MoreDead(d: seq<bool>, e: seq<bool>) {
    |d| == |e| && forall x :: 0 <= x < |d| && d[x] ==> e[x]
  }

  /** A node comes onto the path. */
  lemma Begins(G: Arcs, F: Flags, to: int, len: int, p: seq<int>)
    requires Path(G, to, p) && Sized(G, F) && Futile(G, F, to, len) && Marking(F.mark, p[..|p| - 1])
    ensures var u := p[|p| - 1];
            IsNode(G, u) && !F.mark[u] && Marking(F.mark[u := true], p)
            && FutileAt(G, F.(mark := F.mark[u := true]), to, len, u, 0)
  {
    PathLast(G, to, p);
    var F' := F.(mark := F.mark[p[|p| - 1] := true]);
    forall u, v | Arc(G, u, v) && F'.nodest[u] && len == 0
      ensures Idle(F', to, v)
    {
      assert Idle(F, to, v);
    }
  }

  /** An arc that leads nowhere new. */
  lemma Skipped(G: Arcs, F: Flags, to: int, len: int, u: int, k: int)
    requires FutileAt(G, F, to, len, u, k) && IsNode(G, u) && 0 <= k < |G[u]| && Idle(F, to, G[u][k])
    ensures FutileAt(G, F, to, len, u, k + 1)
  {
  }

  /** An arc to a node that turned out to be a dead end. */
  lemma WasDead(G: Arcs, F: Flags, F': Flags, to: int, u: int, k: int)
    requires FutileAt(G, F, to, 0, u, k) && Sized(G, F') && F'.mark == F.mark && F'.acyclic == F.acyclic
    requires MoreDead(F.nodest, F'.nodest) && Pruned(G, F', to) && k < |G[u]| && Idle(F', to, G[u][k])
    ensures FutileAt(G, F', to, 0, u, k + 1)
  {
  }

  /** A node whose arcs all lead nowhere new is a dead end. */
  lemma Ends(G: Arcs, F: Flags, F0: Flags, to: int, u: int, p: seq<int>)
    requires Proper(G) && Path(G, to, p) && p[|p| - 1] == u && Marking(F.mark, p) && Marking(F0.mark, p[..|p| - 1])
    requires IsNode(G, u) && FutileAt(G, F, to, 0, u, |G[u]|)
    requires Sized(G, F0) && F0.acyclic == F.acyclic && F0.nodest == F.nodest[u := true]
    ensures Pruned(G, F0, to)
  {
    PathLast(G, to, p);
    forall x, v | Arc(G, x, v) && F0.nodest[x]
      ensures Idle(F0, to, v)
    {
      if x == u {
        assert ProperNode(G, u);
        var i :| 0 <= i < |G[u]| && G[u][i] == v;
        assert Idle(F, to, G[u][i]);
      } else {
        assert Idle(F, to, v);
      }
    }
  }

  lemma ArcOf(G: Arcs, u: int, i: int)
    requires Proper(G) && IsNode(G, u) && 0 <= i < |G[u]|
    ensures Arc(G, u, G[u][i]) && IsNode(G, G[u][i]) && G[u][i] != u && G[u] != []
  {
    assert ProperNode(G, u);
  }

  /** The search goes on from an arc. */
  lemma FutileHere(G: Arcs, F: Flags, to: int, len: int, u: int, k: int)
    requires FutileAt(G, F, to, len, u, k)
    ensures Futile(G, F, to, len)
  {
  }

  /** A cycle has been found: nothing more is claimed. */
  lemma FutileFound(G: Arcs, F: Flags, to: int, len: int, u: int, k: int)
    requires Sized(G, F) && len > 0
    ensures FutileAt(G, F, to, len, u, k)
  {
  }
}
