/** What taking nodes out of a graph one by one keeps: the order of the lines
    written, and that every cycle complained of is one. */
module Peeling {
  import opened Sequences
  import opened Digraph

  /** list[i] and its neighbours, or -1. */
  function Entry(list: seq<int>, i: int): int {
    if 0 <= i < |list| then list[i] else -1
  }

  /** The nodes of list are linked in this order, in both directions. */
  ghost predicate DoublyLinked(list: seq<int>, graph: int, next: seq<int>, prev: seq<int>) {
    && |next| == |prev| && graph == Entry(list, 0) && Distinct(list)
    && (forall i :: 0 <= i < |list| ==> LinkedAt(list, next, prev, i))
  }

  ghost predicate LinkedAt(list: seq<int>, next: seq<int>, prev: seq<int>, i: int)
    requires 0 <= i < |list| && |next| == |prev|
  {
    0 <= list[i] < |next| && next[list[i]] == Entry(list, i + 1) && prev[list[i]] == Entry(list, i - 1)
  }

  function Without(list: seq<int>, j: int): (s: seq<int>)
    requires 0 <= j < |list|
    ensures |s| == |list| - 1
  {
    list[..j] + list[j + 1..]
  }

  lemma LinkedHere(list: seq<int>, graph: int, next: seq<int>, prev: seq<int>, j: int)
    requires DoublyLinked(list, graph, next, prev) && 0 <= j < |list|
    ensures LinkedAt(list, next, prev, j) && 0 <= list[j] < |next| == |prev|
    ensures next[list[j]] == Entry(list, j + 1)
  {
  }

  lemma LinkedDistinct(list: seq<int>, graph: int, next: seq<int>, prev: seq<int>)
    requires DoublyLinked(list, graph, next, prev)
    ensures Distinct(list)
  {
  }

  lemma ListNodes(list: seq<int>, graph: int, next: seq<int>, prev: seq<int>)
    requires DoublyLinked(list, graph, next, prev)
    ensures forall i :: 0 <= i < |list| ==> 0 <= list[i] < |next|
  {
    forall i | 0 <= i < |list|
      ensures 0 <= list[i] < |next|
    {
      assert LinkedAt(list, next, prev, i);
    }
  }

  /** A node is not next to itself. */
  lemma NextDiffers(list: seq<int>, graph: int, next: seq<int>, prev: seq<int>, j: int)
    requires DoublyLinked(list, graph, next, prev) && 0 <= j < |list|
    ensures var n := list[j];
            && 0 <= n < |next| == |prev| && prev[n] != n && next[n] != n
            && (prev[n] == -1 || 0 <= prev[n] < |next|) && (next[n] == -1 || 0 <= next[n] < |prev|)
  {
    assert LinkedAt(list, next, prev, j);
    assert j > 0 ==> LinkedAt(list, next, prev, j - 1);
    assert j + 1 < |list| ==> LinkedAt(list, next, prev, j + 1);
  }

  /** Unlinking node j. */
  lemma Unlinked(list: seq<int>, graph: int, next: seq<int>, prev: seq<int>, j: int, graph': int, next': seq<int>, prev': seq<int>)
    requires DoublyLinked(list, graph, next, prev) && 0 <= j < |list| && LinkedAt(list, next, prev, j)
    requires var n := list[j]; if prev[n] == -1 then graph' == next[n] && next' == next
                               else graph' == graph && 0 <= prev[n] < |next| && next' == next[prev[n] := next[n]]
    requires var n := list[j]; if next[n] == -1 then prev' == prev else 0 <= next[n] < |prev| && prev' == prev[next[n] := prev[n]]
    ensures DoublyLinked(Without(list, j), graph', next', prev')
  {
    var s := Without(list, j);
    assert j > 0 ==> LinkedAt(list, next, prev, j - 1);
    assert j + 1 < |list| ==> LinkedAt(list, next, prev, j + 1);
    forall i | 0 <= i < |s|
      ensures LinkedAt(s, next', prev', i)
    {
      assert LinkedAt(list, next, prev, if i < j then i else i + 1);
    }
  }

  /** Nodes are counted by the arcs that lead to them. */
  ghost predicate RefsOk(G: Arcs, refcnt: seq<int>) {
    |refcnt| == |G| && forall v :: 0 <= v < |G| ==> refcnt[v] == |Into(G, v)|
  }

  /** One less for every node that the first k arcs of n lead to. */
  ghost predicate Lowered(G: Arcs, before: seq<int>, after: seq<int>, n: int, k: int) {
    && IsNode(G, n) && 0 <= k <= |G[n]| && |after| == |before| == |G|
    && forall v :: 0 <= v < |G| ==> after[v] == before[v] - if v in G[n][..k] then 1 else 0
  }

  lemma LoweredNone(G: Arcs, before: seq<int>, n: int)
    requires |before| == |G| && IsNode(G, n)
    ensures Lowered(G, before, before, n, 0)
  {
  }

  lemma NoArcs(G: Arcs, refcnt: seq<int>, n: int)
    requires RefsOk(G, refcnt) && 0 <= n < |refcnt| && refcnt[n] == 0
    ensures Into(G, n) == {}
  {
  }

  lemma LoweredMore(G: Arcs, before: seq<int>, after: seq<int>, n: int, k: int)
    requires Proper(G) && Lowered(G, before, after, n, k) && k < |G[n]| && IsNode(G, G[n][k])
    ensures Lowered(G, before, after[G[n][k] := after[G[n][k]] - 1], n, k + 1)
  {
    assert ProperNode(G, n);
    assert G[n][..k + 1] == G[n][..k] + [G[n][k]];
  }

  lemma LoweredAll(G: Arcs, before: seq<int>, after: seq<int>, n: int)
    requires RefsOk(G, before) && IsNode(G, n) && Lowered(G, before, after, n, |G[n]|)
    ensures RefsOk(G[n := []], after)
  {
    assert G[n][..|G[n]|] == G[n];
    forall v | 0 <= v < |G|
      ensures after[v] == |Into(G[n := []], v)|
    {
      IntoWithout(G, n, v);
    }
  }

  // --------------------------------------------------------------- the result

  ghost predicate Earlier(p: seq<int>, u: int, v: int) {
    exists i, j :: 0 <= i < j < |p| && p[i] == u && p[j] == v
  }

  /** v was taken out to break a reported cycle. */
  ghost predicate Breaker(reported: seq<seq<int>>, v: int) {
    exists c :: c in reported && c != [] && c[|c| - 1] == v
  }

  /** An arc's tail is written before its head, unless the head was a breaker. */
  ghost predicate InOrder(G0: Arcs, printed: seq<int>, reported: seq<seq<int>>) {
    forall u, v :: Arc(G0, u, v) && v in printed ==> Earlier(printed, u, v) || Breaker(reported, v)
  }

  /** c was a cycle of what was left when its last node was taken out. */
  ghost predicate Genuine(G0: Arcs, printed: seq<int>, c: seq<int>) {
    && c != [] && SimpleCycle(G0, c[|c| - 1], c) && c[|c| - 1] in printed
    && forall x :: x in c && x in printed && x != c[|c| - 1] ==> Earlier(printed, c[|c| - 1], x)
  }

  /** Nodes are in the graph, with their arcs, or have been written. */
  ghost predicate Parted(G0: Arcs, G: Arcs, list: seq<int>, printed: seq<int>) {
    && |G| == |G0| && Distinct(printed)
    && (forall u :: u in list || u in printed ==> IsNode(G, u))
    && (forall u :: IsNode(G, u) ==> G[u] == (if u in list then G0[u] else []) && (u in printed <==> u !in list))
  }

  ghost predicate Progress(G0: Arcs, G: Arcs, list: seq<int>, printed: seq<int>, reported: seq<seq<int>>) {
    && Parted(G0, G, list, printed) && InOrder(G0, printed, reported)
    && forall c :: c in reported ==> Genuine(G0, printed, c)
  }

  lemma EarlierStill(p: seq<int>, u: int, v: int, n: int)
    requires Earlier(p, u, v)
    ensures Earlier(p + [n], u, v)
  {
    var i, j :| 0 <= i < j < |p| && p[i] == u && p[j] == v;
    var q := p + [n];
    assert q[i] == u && q[j] == v;
  }

  lemma EarlierNow(p: seq<int>, u: int, n: int)
    requires u in p
    ensures Earlier(p + [n], u, n)
  {
    var i :| 0 <= i < |p| && p[i] == u;
    var q := p + [n];
    assert q[i] == u && q[|p|] == n;
  }

  lemma PartedNext(G0: Arcs, G: Arcs, list: seq<int>, printed: seq<int>, j: int)
    requires Parted(G0, G, list, printed) && Distinct(list) && 0 <= j < |list|
    ensures IsNode(G, list[j]) && Parted(G0, G[list[j] := []], Without(list, j), printed + [list[j]])
  {
    var n, s := list[j], Without(list, j);
    forall u | u in list && u != n
      ensures u in s
    {
      var i :| 0 <= i < |list| && list[i] == u;
      assert s[if i < j then i else i - 1] == u;
    }
    assert n in list && n !in s && IsNode(G, n) && n !in printed;
    var H, p := G[n := []], printed + [n];
    assert Distinct(p);
    forall u | u in s || u in p
      ensures IsNode(H, u)
    {
      assert u in s ==> u in list;
    }
    forall u | IsNode(H, u)
      ensures H[u] == (if u in s then G0[u] else []) && (u in p <==> u !in s)
    {
      assert IsNode(G, u);
      assert u in s ==> u in list && u != n;
    }
  }

  /** A node that no arc leads to, or a breaker, is taken out. */
  lemma OrderNext(G0: Arcs, G: Arcs, list: seq<int>, printed: seq<int>, reported: seq<seq<int>>, more: seq<seq<int>>, j: int)
    requires Parted(G0, G, list, printed) && InOrder(G0, printed, reported) && 0 <= j < |list| && IsNode(G, list[j])
    requires forall c :: c in reported ==> c in more
    requires Breaker(more, list[j]) || Into(G, list[j]) == {}
    ensures InOrder(G0, printed + [list[j]], more)
  {
    var n, p := list[j], printed + [list[j]];
    forall u, v | Arc(G0, u, v) && v in p
      ensures Earlier(p, u, v) || Breaker(more, v)
    {
      if v in printed {
        if Earlier(printed, u, v) {
          EarlierStill(printed, u, v, n);
        } else {
          var c :| c in reported && c != [] && c[|c| - 1] == v;
          assert c in more;
        }
      } else if Into(G, n) == {} {
        assert u !in Into(G, n);
        assert u in printed;
        EarlierNow(printed, u, n);
      }
    }
  }

  lemma GenuineStill(G0: Arcs, printed: seq<int>, c: seq<int>, n: int)
    requires Genuine(G0, printed, c)
    ensures Genuine(G0, printed + [n], c)
  {
    var p, b := printed + [n], c[|c| - 1];
    forall x | x in c && x in p && x != b
      ensures Earlier(p, b, x)
    {
      if x in printed {
        EarlierStill(printed, b, x, n);
      } else {
        EarlierNow(printed, b, n);
      }
    }
  }

  /** The cycle through a breaker was one of the original graph, and all of it
      was still there. */
  lemma GenuineNow(G0: Arcs, G: Arcs, list: seq<int>, printed: seq<int>, c: seq<int>, n: int)
    requires Parted(G0, G, list, printed) && SimpleCycle(G, n, c)
    ensures Genuine(G0, printed + [n], c)
  {
    var p := [n] + c;
    FewerWalks(G0, G, p);
    forall x | x in c
      ensures x !in printed
    {
      var i :| 0 <= i < |c| && c[i] == x;
      if i + 1 < |c| {
        assert Arc(G, p[i + 1], p[i + 2]);
      } else {
        assert Arc(G, p[0], p[1]);
      }
    }
    assert (printed + [n])[|printed|] == n;
  }

  lemma ProgressNext(G0: Arcs, G: Arcs, list: seq<int>, printed: seq<int>, reported: seq<seq<int>>, j: int)
    requires Progress(G0, G, list, printed, reported) && Distinct(list) && 0 <= j < |list|
    requires Into(G, list[j]) == {}
    ensures IsNode(G, list[j])
    ensures Progress(G0, G[list[j] := []], Without(list, j), printed + [list[j]], reported)
  {
    hide Parted, InOrder, Genuine, Breaker;
    PartedNext(G0, G, list, printed, j);
    OrderNext(G0, G, list, printed, reported, reported, j);
    forall c | c in reported
      ensures Genuine(G0, printed + [list[j]], c)
    {
      GenuineStill(G0, printed, c, list[j]);
    }
  }

  lemma ProgressBroken(G0: Arcs, G: Arcs, list: seq<int>, printed: seq<int>, reported: seq<seq<int>>, j: int, c: seq<int>)
    requires Progress(G0, G, list, printed, reported) && Distinct(list) && 0 <= j < |list|
    requires SimpleCycle(G, list[j], c)
    ensures IsNode(G, list[j])
    ensures Progress(G0, G[list[j] := []], Without(list, j), printed + [list[j]], reported + [c])
  {
    hide Parted, InOrder, Genuine;
    PartedNext(G0, G, list, printed, j);
    assert c in reported + [c];
    OrderNext(G0, G, list, printed, reported, reported + [c], j);
    forall d | d in reported + [c]
      ensures Genuine(G0, printed + [list[j]], d)
    {
      if d in reported {
        GenuineStill(G0, printed, d, list[j]);
      } else {
        GenuineNow(G0, G, list, printed, c, list[j]);
      }
    }
  }

  /** When arcs lead to every node that is left, some of them lie on a cycle. */
  lemma CycleLeft(G0: Arcs, G: Arcs, list: seq<int>, printed: seq<int>, refcnt: seq<int>) returns (n: int)
    requires Parted(G0, G, list, printed) && RefsOk(G, refcnt) && list != []
    requires forall i :: 0 <= i < |list| ==> 0 <= list[i] < |refcnt| && refcnt[list[i]] != 0
    ensures n in list && OnCycle(G, n)
  {
    var S := set x | x in list;
    forall v | v in S
      ensures Led(G, S, v)
    {
      var i :| 0 <= i < |list| && list[i] == v;
      assert refcnt[list[i]] == |Into(G, v)|;
      var u :| u in Into(G, v);
      assert Arc(G, u, v) && u in S;
    }
    n := SomeCycle(G, S, [list[0]]);
  }

  lemma KnownStill(G: Arcs, n: int, acyclic: seq<bool>)
    requires Known(G, acyclic) && IsNode(G, n)
    ensures Known(G[n := []], acyclic)
  {
    forall a | 0 <= a < |G| && acyclic[a]
      ensures !OnCycle(G[n := []], a)
    {
      if OnCycle(G[n := []], a) {
        FewerCycles(G, G[n := []], a);
      }
    }
  }

  lemma ProperStill(G: Arcs, n: int)
    requires Proper(G) && IsNode(G, n)
    ensures Proper(G[n := []])
  {
    var H := G[n := []];
    forall u | IsNode(H, u)
      ensures ProperNode(H, u)
    {
      assert ProperNode(G, u);
    }
  }

  // ------------------------------------------------------------------ the flags

  /** No node of list is flagged. */
  ghost predicate ClearOf(list: seq<int>, f: seq<bool>) {
    forall i :: 0 <= i < |list| ==> 0 <= list[i] < |f| && !f[list[i]]
  }

  ghost predicate AllTrue(list: seq<int>, f: seq<bool>) {
    forall i :: 0 <= i < |list| ==> 0 <= list[i] < |f| && f[list[i]]
  }

  lemma ClearFewer(list: seq<int>, j: int, f: seq<bool>)
    requires 0 <= j < |list|
    ensures ClearOf(list, f) ==> ClearOf(Without(list, j), f)
  {
  }

  lemma ClearNone(list: seq<int>, f: seq<bool>)
    ensures ClearOf(list[..0], f)
  {
  }

  lemma ClearOne(list: seq<int>, j: int, f: seq<bool>)
    requires 0 <= j < |list| && 0 <= list[j] < |f| && ClearOf(list[..j], f)
    ensures ClearOf(list[..j + 1], f[list[j] := false])
  {
    assert list[..j + 1] == list[..j] + [list[j]];
  }

  lemma Learned(list: seq<int>, j: int, f: seq<bool>)
    requires 0 <= j < |list| && 0 <= list[j] < |f| && AllTrue(list[..j], f)
    ensures AllTrue(list[..j + 1], f[list[j] := true])
  {
    assert list[..j + 1] == list[..j] + [list[j]];
  }

  lemma LearnedAlready(list: seq<int>, j: int, f: seq<bool>)
    requires 0 <= j < |list| && 0 <= list[j] < |f| && f[list[j]] && AllTrue(list[..j], f)
    ensures AllTrue(list[..j + 1], f)
  {
    assert list[..j + 1] == list[..j] + [list[j]];
  }

  /** It cannot be that no node left lies on a cycle. */
  lemma SomeUnlearned(G: Arcs, list: seq<int>, acyclic: seq<bool>, c: int)
    requires Known(G, acyclic) && c in list && OnCycle(G, c)
    ensures !AllTrue(list, acyclic)
  {
    var i :| 0 <= i < |list| && list[i] == c;
    assert !(0 <= list[i] < |acyclic|) || !acyclic[list[i]];
  }

  lemma BusyFewer(G: Arcs, n: int)
    requires IsNode(G, n)
    ensures |Busy(G[n := []])| <= |Busy(G)|
  {
    assert Busy(G[n := []]) == Busy(G) - {n};
  }

  /** The logs need no more entries than there are nodes left. */
  lemma BusyLeft(G0: Arcs, G: Arcs, list: seq<int>, printed: seq<int>)
    requires Parted(G0, G, list, printed) && Distinct(list)
    ensures |Busy(G)| <= |list|
  {
    var s := set x | x in list;
    DistinctFills(list, s);
    forall u | u in Busy(G)
      ensures u in s
    {
      assert IsNode(G, u);
    }
    assert Busy(G) * (s - Busy(G)) == {} && Busy(G) + (s - Busy(G)) == s;
  }

  /** Before the search from n nothing is in its way. */
  lemma StartSearch(G0: Arcs, G: Arcs, list: seq<int>, printed: seq<int>, F: Flags, n: int)
    requires Parted(G0, G, list, printed) && Sized(G, F) && ClearOf(list, F.nodest) && IsNode(G, n)
    ensures Path(G, n, [n]) && Futile(G, F, n, 0)
  {
    forall u, v | Arc(G, u, v)
      ensures !F.nodest[u]
    {
      assert u in list;
      var i :| 0 <= i < |list| && list[i] == u;
    }
  }

  lemma EndSearch(G: Arcs, F: Flags, n: int)
    requires Sized(G, F) && IsNode(G, n) && Known(G, F.acyclic) && Pruned(G, F, n) && F.nodest[n] && Marking(F.mark, [])
    ensures Known(G, F.acyclic[n := true])
  {
    NoCycle(G, F, n);
  }

  // ----------------------------------------------------------- building a graph

  /** A node without arcs is linked in at the head. */
  lemma LinkedIn(list: seq<int>, graph: int, next: seq<int>, prev: seq<int>)
    requires DoublyLinked(list, graph, next, prev)
    ensures graph == -1 || 0 <= graph < |prev|
    ensures var n := |next|;
            DoublyLinked([n] + list, n, next + [graph], (if graph == -1 then prev else prev[graph := n]) + [-1])
  {
    assert list != [] ==> LinkedAt(list, next, prev, 0);
    var n, s := |next|, [|next|] + list;
    var next', prev' := next + [graph], (if graph == -1 then prev else prev[graph := n]) + [-1];
    assert forall i :: 0 < i < |s| ==> s[i] == list[i - 1];
    assert forall i :: 0 <= i < |list| ==> LinkedAt(list, next, prev, i) && list[i] < n;
    forall i | 0 <= i < |s|
      ensures LinkedAt(s, next', prev', i)
    {
      assert i > 0 ==> LinkedAt(list, next, prev, i - 1);
    }
    NewDistinct(list, n);
  }

  lemma NewDistinct(list: seq<int>, n: int)
    requires Distinct(list) && forall i :: 0 <= i < |list| ==> list[i] < n
    ensures Distinct([n] + list)
  {
  }

  lemma RefsIn(G: Arcs, refcnt: seq<int>)
    requires RefsOk(G, refcnt) && Proper(G)
    ensures RefsOk(G + [[]], refcnt + [0]) && Proper(G + [[]])
  {
    var H := G + [[]];
    forall v | 0 <= v < |H|
      ensures (refcnt + [0])[v] == |Into(H, v)|
    {
      forall u | 0 <= u < |G|
        ensures |G| !in G[u]
      {
        assert ProperNode(G, u);
      }
      assert v < |G| ==> Into(H, v) == Into(G, v);
      assert v == |G| ==> Into(H, v) == {};
    }
    forall u | IsNode(H, u)
      ensures ProperNode(H, u)
    {
      assert u < |G| ==> ProperNode(G, u);
    }
  }

  /** A new arc from n to w. */
  lemma ArcIn(G: Arcs, refcnt: seq<int>, n: int, w: int)
    requires RefsOk(G, refcnt) && Proper(G) && IsNode(G, n) && IsNode(G, w) && n != w && w !in G[n]
    ensures RefsOk(G[n := G[n] + [w]], refcnt[w := refcnt[w] + 1]) && Proper(G[n := G[n] + [w]])
  {
    var H, r := G[n := G[n] + [w]], refcnt[w := refcnt[w] + 1];
    forall v | 0 <= v < |H|
      ensures r[v] == |Into(H, v)|
    {
      IntoWith(G, n, w, v);
    }
    forall u | IsNode(H, u)
      ensures ProperNode(H, u)
    {
      assert ProperNode(G, u);
    }
  }

  ghost predicate NoneTrue(f: seq<bool>) {
    forall u :: 0 <= u < |f| ==> !f[u]
  }

  lemma FlagsIn(list: seq<int>, mark: seq<bool>, nodest: seq<bool>, acyclic: seq<bool>)
    ensures Marking(mark, []) ==> Marking(mark + [false], [])
    ensures NoneTrue(nodest) ==> NoneTrue(nodest + [false])
    ensures NoneTrue(acyclic) ==> NoneTrue(acyclic + [false])
    ensures ClearOf(list, nodest) ==> ClearOf([|nodest|] + list, nodest + [false])
  {
  }

  /** Each name belongs to one node. */
  ghost predicate HashOk(hashtab: map<string, int>, name: seq<string>) {
    && (forall s :: s in hashtab ==> 0 <= hashtab[s] < |name| && name[hashtab[s]] == s)
    && (forall n :: 0 <= n < |name| ==> name[n] in hashtab && hashtab[name[n]] == n)
  }

  lemma HashIn(hashtab: map<string, int>, name: seq<string>, s: string)
    requires HashOk(hashtab, name) && s !in hashtab
    ensures HashOk(hashtab[s := |name|], name + [s])
  {
  }

  /** All nodes are in the graph. */
  ghost predicate AllListed(G: Arcs, list: seq<int>) {
    forall u :: u in list <==> IsNode(G, u)
  }

  lemma ListedIn(G: Arcs, list: seq<int>)
    requires AllListed(G, list)
    ensures AllListed(G + [[]], [|G|] + list)
  {
  }

  lemma ListedStill(G: Arcs, H: Arcs, list: seq<int>)
    requires AllListed(G, list) && |H| == |G|
    ensures AllListed(H, list)
  {
  }

  /** A graph and its flags fit together, and no search is going on. */
  ghost predicate GraphOk(names: int, next: seq<int>, prev: seq<int>, G: Arcs, refcnt: seq<int>, F: Flags, graph: int, list: seq<int>) {
    && names == |next| == |prev| == |G| == |refcnt| && Sized(G, F)
    && Proper(G) && RefsOk(G, refcnt) && DoublyLinked(list, graph, next, prev) && Known(G, F.acyclic)
    && Marking(F.mark, [])
  }

  /** A node is added to a graph of which nothing has been written. */
  lemma GraphIn(names: int, next: seq<int>, prev: seq<int>, G: Arcs, refcnt: seq<int>, F: Flags, graph: int, list: seq<int>)
    requires GraphOk(names, next, prev, G, refcnt, F, graph, list) && NoneTrue(F.acyclic) && NoneTrue(F.nodest)
    ensures graph == -1 || 0 <= graph < |prev|
    ensures var prev1, F1 := if graph == -1 then prev else prev[graph := |next|], Flags(F.mark + [false], F.nodest + [false], F.acyclic + [false]);
            && GraphOk(names + 1, next + [graph], prev1 + [-1], G + [[]], refcnt + [0], F1, |next|, [|next|] + list)
            && NoneTrue(F1.acyclic) && NoneTrue(F1.nodest)
            && (ClearOf(list, F.nodest) ==> ClearOf([|next|] + list, F1.nodest))
  {
    hide RefsOk, Proper, DoublyLinked, Known, Marking, NoneTrue, ClearOf;
    LinkedIn(list, graph, next, prev);
    RefsIn(G, refcnt);
    FlagsIn(list, F.mark, F.nodest, F.acyclic);
    NoneKnown(G + [[]], F.acyclic + [false]);
  }

  /** Before anything has been written. */
  lemma ProgressFirst(G: Arcs, list: seq<int>)
    requires AllListed(G, list)
    ensures Progress(G, G, list, [], [])
  {
  }

  /** The arcs between names. */
  ghost function Named(name: seq<string>, G: Arcs): (s: set<(string, string)>)
    requires |name| == |G| && Proper(G)
  {
    set u, v | 0 <= u < |G| && v in G[u] :: (name[u], NameOf(name, v))
  }

  function NameOf(name: seq<string>, v: int): string {
    if 0 <= v < |name| then name[v] else ""
  }

  lemma NoNames(name: seq<string>, G: Arcs)
    requires name == [] && G == [] && Proper(G)
    ensures Named(name, G) == {}
  {
  }

  lemma NamedNode(name: seq<string>, G: Arcs, s: string)
    requires |name| == |G| && Proper(G)
    ensures Proper(G + [[]]) && Named(name + [s], G + [[]]) == Named(name, G)
  {
    var H, m := G + [[]], name + [s];
    forall u | IsNode(H, u)
      ensures ProperNode(H, u)
    {
      assert u < |G| ==> ProperNode(G, u);
    }
    forall u, v | 0 <= u < |G| && v in G[u]
      ensures NameOf(m, v) == NameOf(name, v)
    {
      assert ProperNode(G, u);
    }
    assert forall u, v :: 0 <= u < |H| && v in H[u] ==> u < |G| && v in G[u] && m[u] == name[u];
    assert forall u, v :: 0 <= u < |G| && v in G[u] ==> v in H[u] && m[u] == name[u];
  }

  lemma NamedArc(name: seq<string>, G: Arcs, n: int, w: int)
    requires |name| == |G| && Proper(G) && IsNode(G, n) && IsNode(G, w) && Proper(G[n := G[n] + [w]])
    ensures Named(name, G[n := G[n] + [w]]) == Named(name, G) + {(name[n], name[w])}
  {
    var H := G[n := G[n] + [w]];
    NamedHas(name, H, n, w);
    forall x | x in Named(name, H)
      ensures x in Named(name, G) || x == (name[n], name[w])
    {
      var u, v :| 0 <= u < |H| && v in H[u] && x == (name[u], NameOf(name, v));
      assert v in G[u] || (u == n && v == w);
    }
    forall x | x in Named(name, G)
      ensures x in Named(name, H)
    {
      var u, v :| 0 <= u < |G| && v in G[u] && x == (name[u], NameOf(name, v));
      assert v in H[u];
    }
  }

  lemma NamedHas(name: seq<string>, G: Arcs, n: int, w: int)
    requires |name| == |G| && Proper(G) && IsNode(G, n) && IsNode(G, w) && w in G[n]
    ensures (name[n], name[w]) in Named(name, G)
    ensures Named(name, G) + {(name[n], name[w])} == Named(name, G)
  {
    assert NameOf(name, w) == name[w];
  }

  lemma NoneKnown(G: Arcs, acyclic: seq<bool>)
    requires NoneTrue(acyclic) && |acyclic| == |G|
    ensures Known(G, acyclic)
  {
  }

  // ------------------------------------------------------------- the theorems

  /** Without cycles in the input every arc's tail comes before its head. */
  lemma AcyclicSorted(G0: Arcs, G: Arcs, printed: seq<int>, reported: seq<seq<int>>)
    requires Progress(G0, G, [], printed, reported) && forall n :: IsNode(G0, n) ==> !OnCycle(G0, n)
    ensures reported == []
    ensures forall u, v :: Arc(G0, u, v) ==> Earlier(printed, u, v)
  {
    if reported != [] {
      var c := reported[0];
      assert Genuine(G0, printed, c);
      CycleOnCycle(G0, c[|c| - 1], c);
    }
  }

  /** Every node is written exactly once. */
  lemma AllWritten(G0: Arcs, G: Arcs, printed: seq<int>, reported: seq<seq<int>>)
    requires Progress(G0, G, [], printed, reported)
    ensures Distinct(printed) && |printed| == |G0| && forall n :: IsNode(G0, n) <==> n in printed
  {
    var all := FirstNumbers(|G0|);
    forall x: int
      ensures x in all <==> x in printed
    {
      assert IsNode(G, x) <==> 0 <= x < |G0|;
    }
    assert all == set x | x in printed;
    DistinctFills(printed, all);
  }

  lemma {:induction false} DistinctFills(p: seq<int>, s: set<int>)
    requires Distinct(p) && s == set x | x in p
    ensures |p| == |s|
    decreases |p|
  {
    if p != [] {
      var last := |p| - 1;
      assert s == (set x | x in p[..last]) + {p[last]};
      DistinctFills(p[..last], set x | x in p[..last]);
    }
  }

  // ------------------------------------------------------------------ by name

  /** The arcs that the first n words ask for. */
  function PairsTo(words: seq<string>, n: int): (p: set<(string, string)>)
    requires 0 <= n <= |words|
    decreases n
  {
    if n < 2 then {}
    else PairsTo(words, n - 2) + if words[n - 2] == words[n - 1] then {} else {(words[n - 2], words[n - 1])}
  }

  /** They are the words in pairs, the first of a pair being the tail. */
  lemma {:induction false} PairsAre(words: seq<string>, n: int, a: string, b: string)
    requires 0 <= n <= |words| && n % 2 == 0
    ensures (a, b) in PairsTo(words, n) <==> a != b && exists i :: 0 <= i < n - 1 && i % 2 == 0 && words[i] == a && words[i + 1] == b
    decreases n
  {
    if n >= 2 {
      PairsAre(words, n - 2, a, b);
    }
  }

  ghost predicate NamesTo(words: seq<string>, n: int, name: seq<string>)
    requires 0 <= n <= |words|
  {
    forall s :: s in name <==> s in words[..n]
  }

  lemma MoreWords(words: seq<string>, n: int, name: seq<string>, name': seq<string>)
    requires 0 <= n && n + 2 <= |words| && NamesTo(words, n, name)
    requires forall s :: s in name' <==> s in name || s == words[n] || s == words[n + 1]
    ensures NamesTo(words, n + 2, name')
  {
    assert words[..n + 2] == words[..n] + [words[n], words[n + 1]];
  }

  ghost predicate DistinctNames(lines: seq<string>) {
    forall i, j :: 0 <= i < j < |lines| ==> lines[i] != lines[j]
  }

  ghost predicate Before(lines: seq<string>, a: string, b: string) {
    exists i, j :: 0 <= i < j < |lines| && lines[i] == a && lines[j] == b
  }

  /** c names the nodes of a cycle: each has an arc to the next, and the last to
      the first. */
  ghost predicate Cyclic(P: set<(string, string)>, c: seq<string>) {
    && c != [] && DistinctNames(c) && (c[|c| - 1], c[0]) in P
    && forall i, j :: 0 <= i && j == i + 1 && j < |c| ==> (c[i], c[j]) in P
  }

  /** b ends a reported cycle: it was taken out to break it. */
  ghost predicate Broken(cycles: seq<seq<string>>, b: string) {
    exists c :: c in cycles && c != [] && c[|c| - 1] == b
  }

  /** The output: every word once, in topological order but for the heads of
      arcs that break reported cycles, which are cycles of the input. */
  ghost predicate Sorted(words: seq<string>, lines: seq<string>, cycles: seq<seq<string>>) {
    var P := PairsTo(words, |words|);
    && DistinctNames(lines) && (forall s :: s in lines <==> s in words)
    && (forall a, b :: (a, b) in P ==> Before(lines, a, b) || Broken(cycles, b))
    && (forall c :: c in cycles ==> Cyclic(P, c))
  }

  function NamesOf(name: seq<string>, p: seq<int>): (s: seq<string>)
    ensures |s| == |p|
  {
    seq(|p|, i requires 0 <= i < |p| => NameOf(name, p[i]))
  }

  function CyclesOf(name: seq<string>, r: seq<seq<int>>): (s: seq<seq<string>>)
    ensures |s| == |r|
  {
    seq(|r|, i requires 0 <= i < |r| => NamesOf(name, r[i]))
  }

  lemma NamesDiffer(hashtab: map<string, int>, name: seq<string>, u: int, v: int)
    requires HashOk(hashtab, name) && 0 <= u < |name| && 0 <= v < |name| && u != v
    ensures NameOf(name, u) != NameOf(name, v)
  {
  }

  lemma CycleNamed(hashtab: map<string, int>, name: seq<string>, G: Arcs, n: int, c: seq<int>)
    requires HashOk(hashtab, name) && |name| == |G| && Proper(G) && SimpleCycle(G, n, c)
    ensures Cyclic(Named(name, G), NamesOf(name, c))
  {
    var p, s := [n] + c, NamesOf(name, c);
    forall i | 0 <= i < |c|
      ensures 0 <= c[i] < |name| && (NameOf(name, p[i]), s[i]) in Named(name, G)
    {
      assert Arc(G, p[i], p[i + 1]);
      NamedHas(name, G, p[i], p[i + 1]);
    }
    forall i, j | 0 <= i < j < |s|
      ensures s[i] != s[j]
    {
      NamesDiffer(hashtab, name, c[i], c[j]);
    }
    forall i, j | 0 <= i && j == i + 1 && j < |s|
      ensures (s[i], s[j]) in Named(name, G)
    {
      assert p[j] == c[i];
    }
  }

  lemma EarlierNamed(name: seq<string>, p: seq<int>, u: int, v: int)
    requires Earlier(p, u, v)
    ensures Before(NamesOf(name, p), NameOf(name, u), NameOf(name, v))
  {
    var i, j :| 0 <= i < j < |p| && p[i] == u && p[j] == v;
    var s := NamesOf(name, p);
    assert s[i] == NameOf(name, u) && s[j] == NameOf(name, v);
  }

  lemma BreakerNamed(name: seq<string>, r: seq<seq<int>>, v: int)
    requires Breaker(r, v)
    ensures Broken(CyclesOf(name, r), NameOf(name, v))
  {
    var c :| c in r && c != [] && c[|c| - 1] == v;
    var i :| 0 <= i < |r| && r[i] == c;
    var s := NamesOf(name, c);
    assert CyclesOf(name, r)[i] == s && s[|s| - 1] == NameOf(name, v);
  }

  lemma PairNamed(name: seq<string>, G: Arcs, printed: seq<int>, reported: seq<seq<int>>, a: string, b: string)
    requires |name| == |G| && Proper(G) && (a, b) in Named(name, G) && InOrder(G, printed, reported)
    requires forall n :: IsNode(G, n) ==> n in printed
    ensures Before(NamesOf(name, printed), a, b) || Broken(CyclesOf(name, reported), b)
  {
    var u, v :| 0 <= u < |G| && v in G[u] && (a, b) == (name[u], NameOf(name, v));
    assert ProperNode(G, u) && Arc(G, u, v) && IsNode(G, v);
    if Earlier(printed, u, v) {
      EarlierNamed(name, printed, u, v);
    } else {
      BreakerNamed(name, reported, v);
    }
  }

  lemma LinesNamed(hashtab: map<string, int>, name: seq<string>, printed: seq<int>)
    requires HashOk(hashtab, name) && Distinct(printed) && forall n :: 0 <= n < |name| <==> n in printed
    ensures DistinctNames(NamesOf(name, printed)) && forall s :: s in NamesOf(name, printed) <==> s in name
  {
    var lines := NamesOf(name, printed);
    forall i, j | 0 <= i < j < |lines|
      ensures lines[i] != lines[j]
    {
      assert printed[i] in printed && printed[j] in printed;
      NamesDiffer(hashtab, name, printed[i], printed[j]);
    }
    forall s | s in name
      ensures s in lines
    {
      var n :| 0 <= n < |name| && name[n] == s;
      assert n in printed;
      var i :| 0 <= i < |printed| && printed[i] == n;
      assert lines[i] == s;
    }
    forall s | s in lines
      ensures s in name
    {
      var i :| 0 <= i < |lines| && lines[i] == s;
      assert printed[i] in printed;
    }
  }

  /** The result of a run, by name. */
  lemma RunSorted(words: seq<string>, hashtab: map<string, int>, name: seq<string>, G0: Arcs, G: Arcs,
                  printed: seq<int>, reported: seq<seq<int>>)
    requires HashOk(hashtab, name) && |name| == |G0| && Proper(G0) && Progress(G0, G, [], printed, reported)
    requires Named(name, G0) == PairsTo(words, |words|) && NamesTo(words, |words|, name)
    ensures Sorted(words, NamesOf(name, printed), CyclesOf(name, reported))
  {
    hide Named, InOrder, Parted, HashOk, PairsTo, Before, Broken, Cyclic, SimpleCycle, DistinctNames, NamesOf;
    AllWritten(G0, G, printed, reported);
    LinesNamed(hashtab, name, printed);
    assert words[..|words|] == words;
    forall a, b | (a, b) in PairsTo(words, |words|)
      ensures Before(NamesOf(name, printed), a, b) || Broken(CyclesOf(name, reported), b)
    {
      PairNamed(name, G0, printed, reported, a, b);
    }
    forall c | c in CyclesOf(name, reported)
      ensures Cyclic(PairsTo(words, |words|), c)
    {
      var i :| 0 <= i < |reported| && CyclesOf(name, reported)[i] == c;
      assert c == NamesOf(name, reported[i]);
      assert Genuine(G0, printed, reported[i]);
      CycleNamed(hashtab, name, G0, reported[i][|reported[i]| - 1], reported[i]);
    }
  }

  /** Told in words: the first word of a pair is written before the second one,
      unless that one was taken out last of the nodes of a reported cycle; and
      of each cycle every word and the next one are a pair of the input. */
  lemma WordsOrdered(words: seq<string>, lines: seq<string>, cycles: seq<seq<string>>, i: int)
    requires Sorted(words, lines, cycles) && |words| % 2 == 0 && 0 <= i < |words| - 1 && i % 2 == 0 && words[i] != words[i + 1]
    ensures (exists j, k :: 0 <= j < k < |lines| && lines[j] == words[i] && lines[k] == words[i + 1])
            || exists c :: c in cycles && c != [] && c[|c| - 1] == words[i + 1]
  {
    PairsAre(words, |words|, words[i], words[i + 1]);
  }

  lemma CyclesPaired(words: seq<string>, lines: seq<string>, cycles: seq<seq<string>>, c: seq<string>, j: int)
    requires Sorted(words, lines, cycles) && |words| % 2 == 0 && c in cycles && 0 <= j < |c|
    ensures exists i :: 0 <= i < |words| - 1 && i % 2 == 0 && words[i] == c[j] && words[i + 1] == c[(j + 1) % |c|]
  {
    var k := (j + 1) % |c|;
    assert Cyclic(PairsTo(words, |words|), c);
    assert if j + 1 < |c| then k == j + 1 else k == 0;
    assert (c[j], c[k]) in PairsTo(words, |words|);
    PairsAre(words, |words|, c[j], c[k]);
  }

  /** If the pairs form no cycle, no cycle is reported and the order is
      topological. */
  lemma SortedAcyclic(words: seq<string>, lines: seq<string>, cycles: seq<seq<string>>)
    requires Sorted(words, lines, cycles)
    ensures (forall c :: !Cyclic(PairsTo(words, |words|), c)) ==>
              cycles == [] && forall a, b :: (a, b) in PairsTo(words, |words|) ==> Before(lines, a, b)
  {
    hide Before, Cyclic;
    if cycles != [] {
      assert Cyclic(PairsTo(words, |words|), cycles[0]);
    }
  }
}
