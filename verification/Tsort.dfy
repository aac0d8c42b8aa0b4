/** tsort: topological sort that breaks cycles.  Nodes are numbered as they are
    created; a number stands for a pointer to the node, and -1 for none. */
module Tsort {
  import opened Sequences
  import opened Digraph
  import opened Peeling

  const NULL := -1

  class Sorter {
    var name: seq<string>
    var next: seq<int>           // next node in the graph
    var prev: seq<int>           // the node whose next this is, if any
    var arcs: seq<seq<int>>
    var refcnt: seq<int>         // how many arcs lead to the node
    var mark: seq<bool>          // on the path of the search
    var nodest: seq<bool>        // a dead end of the present search
    var acyclic: seq<bool>       // on no cycle
    var graph: int               // the first node of the graph
    var hashtab: map<string, int>
    var cycleBuf: array?<int>
    var longestCycle: array?<int>
    var printed: seq<int>        // the lines written
    var reported: seq<seq<int>>  // the cycles complained of
    ghost var list: seq<int>     // the nodes still in the graph, in order

    // -------------------------------------------------------------- the search

    ghost function F(): Flags
      reads this
    {
      Flags(mark, nodest, acyclic)
    }

    /** The logs are large enough. */
    ghost predicate Logs()
      reads this
    {
      && cycleBuf != null && longestCycle != null && cycleBuf != longestCycle
      && cycleBuf.Length == longestCycle.Length >= |Busy(arcs)|
    }

    /** What the first len entries of longestCycle say. */
    ghost predicate Logged(to: int, len: int)
      reads this, longestCycle
    {
      && longestCycle != null && 0 <= len <= longestCycle.Length
      && (len > 0 ==> SimpleCycle(arcs, to, longestCycle[..len]))
    }

    /** The search is at the end of path. */
    ghost predicate OnPath(to: int, path: seq<int>)
      reads this, cycleBuf
    {
      && Path(arcs, to, path) && cycleBuf != null && |path| - 1 <= cycleBuf.Length
      && cycleBuf[..|path| - 1] == path[1..]
    }

    /** find_cycle: the length of a cycle through to, left in longestCycle, if
        there is one beyond path, the path so far; otherwise longestLen. */
    method FindCycle(from: int, to: int, longestLen: int, depth: int, ghost path: seq<int>) returns (len: int)
      requires Proper(arcs) && Logs() && Logged(to, longestLen) && Futile(arcs, F(), to, longestLen)
      requires depth >= 0 && |path| == depth + 1 && OnPath(to, path) && path[depth] == from
      requires Marking(mark, path[..depth]) && Sized(arcs, F())
      modifies this`mark, this`nodest, cycleBuf, longestCycle
      decreases |arcs| - depth, 1
      ensures Sized(arcs, F()) && mark == old(mark) && MoreDead(old(nodest), nodest) && 0 <= from < |nodest|
      ensures cycleBuf[..depth] == old(cycleBuf[..depth])
      ensures old(nodest[from] || acyclic[from]) ==> len == 0 && nodest == old(nodest)
      ensures !old(nodest[from] || acyclic[from]) ==>
                && longestLen <= len && Logged(to, len)
                && (len == 0 ==> Pruned(arcs, Flags(mark, nodest[from := true], acyclic), to))
    {
      hide Busy, Futile, FutileAt, Marking, Path, Proper, Pruned, SimpleCycle;
      assert Path(arcs, to, path);
      PathLast(arcs, to, path);
      Begins(arcs, F(), to, longestLen, path);
      assert MoreDead(nodest, nodest);
      if nodest[from] || mark[from] || acyclic[from] {
        return 0;
      }
      mark := mark[from := true];
      len := longestLen;
      assert Logged(to, len) && OnPath(to, path) && Logs();
      var i := 0;
      while i < |arcs[from]|
        invariant 0 <= i <= |arcs[from]| && Sized(arcs, F()) && MoreDead(old(nodest), nodest) && Marking(mark, path)
        invariant mark == old(mark)[from := true] && Logs()
        invariant longestLen <= len && Logged(to, len) && OnPath(to, path) && cycleBuf[..depth] == old(cycleBuf[..depth])
        invariant FutileAt(arcs, F(), to, len, from, i)
      {
        ghost var d := nodest;
        len := Follow(from, to, len, depth, i, path);
        assert MoreDead(old(nodest), nodest);
        i := i + 1;
      }
      if len == 0 {
        Ends(arcs, F(), Flags(old(mark), nodest[from := true], acyclic), to, from, path);
      }
      mark := mark[from := false];
      assert mark == old(mark);
      assert Logged(to, len);
    }

    /** One arc of from. */
    method Follow(from: int, to: int, longestLen: int, depth: int, i: int, ghost path: seq<int>) returns (len: int)
      requires Proper(arcs) && Logs() && Logged(to, longestLen) && Sized(arcs, F())
      requires depth >= 0 && |path| == depth + 1 && OnPath(to, path) && path[depth] == from
      requires 0 <= from < |arcs| && 0 <= i < |arcs[from]| && Marking(mark, path)
      requires FutileAt(arcs, F(), to, longestLen, from, i)
      modifies this`mark, this`nodest, cycleBuf, longestCycle
      decreases |arcs| - depth, 0
      ensures Sized(arcs, F()) && mark == old(mark) && MoreDead(old(nodest), nodest) && Logs()
      ensures cycleBuf[..depth] == old(cycleBuf[..depth]) && OnPath(to, path)
      ensures longestLen <= len && Logged(to, len)
      ensures FutileAt(arcs, F(), to, len, from, i + 1)
    {
      hide Arc, Busy, FutileAt, Marking, Path, Proper, SimpleCycle;
      len := longestLen;
      var np := arcs[from][i];
      PathLast(arcs, to, path);
      PathLength(arcs, to, path);
      ArcOf(arcs, from, i);
      assert MoreDead(nodest, nodest);
      cycleBuf[depth] := np;
      assert Logged(to, len);
      assert cycleBuf[..depth] == old(cycleBuf[..depth]) == path[1..];
      if np == to {
        if depth + 1 > len {
          len := depth + 1;
          forall k | 0 <= k < len {
            longestCycle[k] := cycleBuf[k];
          }
          assert longestCycle[..len] == path[1..] + [to];
        }
        PathClosed(arcs, to, path);
        assert Logged(to, len);
        FutileFound(arcs, F(), to, len, from, i + 1);
      } else {
        if mark[np] || acyclic[np] || nodest[np] {
          Skipped(arcs, F(), to, len, from, i);
          return;
        }
        len := Descend(np, from, to, len, depth, i, path);
      }
    }

    /** np is searched, and is a dead end if nothing is found. */
    method Descend(np: int, from: int, to: int, longestLen: int, depth: int, i: int, ghost path: seq<int>) returns (len: int)
      requires Proper(arcs) && Logs() && Logged(to, longestLen) && Sized(arcs, F())
      requires 0 <= depth < |arcs| && |path| == depth + 1 && OnPath(to, path) && path[depth] == from
      requires 0 <= from < |arcs| && 0 <= i < |arcs[from]| && arcs[from][i] == np && Marking(mark, path)
      requires FutileAt(arcs, F(), to, longestLen, from, i) && np != to
      requires 0 <= np < |mark| && !mark[np] && !acyclic[np] && !nodest[np]
      requires depth < cycleBuf.Length && cycleBuf[depth] == np
      modifies this`mark, this`nodest, cycleBuf, longestCycle
      decreases |arcs| - depth - 1, 2
      ensures Sized(arcs, F()) && mark == old(mark) && MoreDead(old(nodest), nodest) && Logs()
      ensures cycleBuf[..depth] == old(cycleBuf[..depth]) && OnPath(to, path)
      ensures longestLen <= len && Logged(to, len)
      ensures FutileAt(arcs, F(), to, len, from, i + 1)
    {
      hide Arc, Busy, Futile, FutileAt, Path, Proper, Pruned, SimpleCycle;
      ghost var path1, F0 := path + [np], F();
      len := longestLen;
      ArcOf(arcs, from, i);
      assert np !in path;
      PathNext(arcs, to, path, np);
      assert path1[..depth + 1] == path && path1[1..] == path[1..] + [np];
      assert cycleBuf[..depth + 1] == path1[1..];
      FutileHere(arcs, F(), to, len, from, i);
      var sub := FindCycle(np, to, len, depth + 1, path1);
      assert cycleBuf[..depth] == path[1..] by {
        assert cycleBuf[..depth] == cycleBuf[..depth + 1][..depth];
      }
      ghost var d := nodest;
      if sub == 0 {
        nodest := nodest[np := true];
        assert MoreDead(F0.nodest, nodest);
        assert Idle(F(), to, np);
        WasDead(arcs, F0, F(), to, from, i);
      } else {
        FutileFound(arcs, F(), to, sub, from, i + 1);
      }
      assert Logged(to, sub);
      if sub > len {
        len := sub;
      }
    }

    // ---------------------------------------------------------------- the graph

    /** The graph is in order, and no search is going on. */
    ghost predicate Valid()
      reads this
    {
      Core() && ClearOf(list, nodest)
    }

    /** The same, but for dead ends of the last search. */
    ghost predicate Core()
      reads this
    {
      GraphOk(|name|, next, prev, arcs, refcnt, F(), graph, list)
    }

    /** remove_node: node n is written and taken out of the graph. */
    method RemoveNode(n: int, ghost j: int)
      requires Core() && 0 <= j < |list| && n == list[j]
      modifies this`printed, this`refcnt, this`arcs, this`graph, this`next, this`prev, this`list
      ensures Core() && 0 <= n < old(|arcs|) && arcs == old(arcs)[n := []] && printed == old(printed) + [n]
      ensures list == old(Without(list, j)) && next[n] == old(next[n])
      ensures old(Valid()) ==> Valid()
    {
      hide Arc, ClearOf, Entry, Known, DoublyLinked, LinkedAt, Lowered, Marking, Proper, RefsOk, Without;
      ghost var before := refcnt;
      LinkedHere(list, graph, next, prev, j);
      ClearFewer(list, j, nodest);
      printed := printed + [n];
      LoweredNone(arcs, refcnt, n);
      var i := 0;
      while i < |arcs[n]|
        modifies this`refcnt
        invariant 0 <= i <= |arcs[n]| && Lowered(arcs, before, refcnt, n, i) && |refcnt| == |arcs|
      {
        ArcOf(arcs, n, i);
        LoweredMore(arcs, before, refcnt, n, i);
        refcnt := refcnt[arcs[n][i] := refcnt[arcs[n][i]] - 1];
        i := i + 1;
      }
      LoweredAll(arcs, before, refcnt, n);
      ProperStill(arcs, n);
      KnownStill(arcs, n, acyclic);
      arcs := arcs[n := []];
      Unlink(n, j);
    }

    /** The links around n close over it. */
    method Unlink(n: int, ghost j: int)
      requires DoublyLinked(list, graph, next, prev) && 0 <= j < |list| && n == list[j] && |next| == |prev|
      modifies this`graph, this`next, this`prev, this`list
      ensures DoublyLinked(list, graph, next, prev) && list == old(Without(list, j))
      ensures |next| == |prev| == old(|next|) && 0 <= n < |next| && next[n] == old(next[n])
    {
      hide Entry, DoublyLinked, Without;
      ghost var next0, prev0, graph0 := next, prev, graph;
      LinkedHere(list, graph, next, prev, j);
      NextDiffers(list, graph, next, prev, j);
      if prev[n] == NULL {
        graph := next[n];
      } else {
        next := next[prev[n] := next[n]];
      }
      if next[n] != NULL {
        prev := prev[next[n] := prev[n]];
      }
      Unlinked(list, graph0, next0, prev0, j, graph, next, prev);
      list := Without(list, j);
    }

    /** One pass over the graph: nodes that no arc leads to are taken out. */
    method Sweep(ghost G0: Arcs) returns (cnt: int)
      requires Valid() && Progress(G0, arcs, list, printed, reported)
      modifies this`printed, this`refcnt, this`arcs, this`graph, this`next, this`prev, this`list
      ensures Valid() && Progress(G0, arcs, list, printed, reported) && |list| + cnt == old(|list|) && cnt >= 0
      ensures |Busy(arcs)| <= old(|Busy(arcs)|)
      ensures cnt == 0 ==> forall i :: 0 <= i < |list| ==> 0 <= list[i] < |refcnt| && refcnt[list[i]] != 0
    {
      hide Busy, ClearOf, Distinct, Into, IsNode, Known, LinkedAt, Marking, Progress, Proper, RefsOk;
      cnt := 0;
      var n := graph;
      ghost var j := 0;
      assert n == Entry(list, j);
      while n != NULL
        invariant Valid() && Progress(G0, arcs, list, printed, reported) && |list| + cnt == old(|list|) && cnt >= 0
        invariant 0 <= j <= |list| && n == Entry(list, j) && |Busy(arcs)| <= old(|Busy(arcs)|)
        invariant cnt == 0 ==> forall i :: 0 <= i < j ==> 0 <= list[i] < |refcnt| && refcnt[list[i]] != 0
        decreases |list| - j
      {
        assert j < |list| && n == list[j];
        LinkedHere(list, graph, next, prev, j);
        ghost var list0 := list;
        var next1 := next[n];
        if refcnt[n] == 0 {
          NoArcs(arcs, refcnt, n);
          LinkedDistinct(list, graph, next, prev);
          ProgressNext(G0, arcs, list, printed, reported, j);
          BusyFewer(arcs, n);
          RemoveNode(n, j);
          cnt := cnt + 1;
          assert Entry(list, j) == Entry(list0, j + 1);
        } else {
          j := j + 1;
        }
        n := next1;
      }
      assert j == |list| by { ListNodes(list, graph, next, prev); }
    }

    /** clear_cycle: no node of the graph is a dead end any more. */
    method ClearCycle()
      requires Core()
      modifies this`nodest
      ensures Valid()
    {
      hide ClearOf, Distinct, Known, LinkedAt, Marking, Proper, RefsOk;
      var n := graph;
      ghost var j := 0;
      assert n == Entry(list, j);
      ClearNone(list, nodest);
      while n != NULL
        invariant 0 <= j <= |list| && n == Entry(list, j) && ClearOf(list[..j], nodest) && |nodest| == |arcs|
        decreases |list| - j
      {
        assert j < |list| && n == list[j];
        LinkedHere(list, graph, next, prev, j);
        ClearOne(list, j, nodest);
        nodest := nodest[n := false];
        n := next[n];
        j := j + 1;
      }
      assert j == |list| && list[..j] == list by { ListNodes(list, graph, next, prev); }
    }

    /** When arcs lead to every node that is left, a cycle is found and reported,
        and the node it was found from is taken out. */
    method BreakCycle(ghost G0: Arcs)
      requires Valid() && Progress(G0, arcs, list, printed, reported) && Logs() && list != []
      requires forall i :: 0 <= i < |list| ==> 0 <= list[i] < |refcnt| && refcnt[list[i]] != 0
      modifies this`printed, this`refcnt, this`arcs, this`graph, this`next, this`prev, this`list
      modifies this`mark, this`nodest, this`acyclic, this`reported, cycleBuf, longestCycle
      ensures Valid() && Progress(G0, arcs, list, printed, reported) && Logs() && |list| == old(|list|) - 1
    {
      hide Busy, ClearOf, Distinct, Genuine, InOrder, Known, LinkedAt, Logged, Marking, OnCycle, Parted, Proper,
        RefsOk, Without;
      ghost var c := CycleLeft(G0, arcs, list, printed, refcnt);
      var n, cnt := graph, 0;
      ghost var j := 0;
      assert n == Entry(list, j);
      assert AllTrue(list[..0], acyclic);
      while n != NULL
        modifies this`mark, this`nodest, this`acyclic, cycleBuf, longestCycle
        invariant Valid() && Logs() && 0 <= j <= |list| && n == Entry(list, j) && AllTrue(list[..j], acyclic) && cnt == 0
        decreases |list| - j
      {
        assert j < |list| && n == list[j];
        NodeHere(j);
        if !acyclic[n] {
          cnt := Look(n, j, G0);
          if cnt > 0 {
            break;
          }
          Learned(list, j, acyclic);
          acyclic := acyclic[n := true];
          assert Core() && Logs();
          ClearCycle();
          assert Logs();
        } else {
          LearnedAlready(list, j, acyclic);
        }
        n := next[n];
        j := j + 1;
      }
      if n == NULL {
        assert list[..j] == list by { NodesHere(); }
        SomeUnlearned(arcs, list, acyclic, c);
        assert false;
      }
      Report(n, cnt, j, G0);
    }

    /** The cycle in longestCycle is reported and broken at node n. */
    method Report(n: int, cnt: int, ghost j: int, ghost G0: Arcs)
      requires Core() && Progress(G0, arcs, list, printed, reported) && Logs() && Logged(n, cnt) && cnt > 0
      requires 0 <= j < |list| && list[j] == n
      modifies this`printed, this`refcnt, this`arcs, this`graph, this`next, this`prev, this`list, this`nodest, this`reported
      ensures Valid() && Progress(G0, arcs, list, printed, reported) && Logs() && list == old(Without(list, j))
    {
      hide Busy, Distinct, IsNode, Known, DoublyLinked, Marking, Progress, Proper, RefsOk, SimpleCycle, Sized, Valid,
        Without;
      ghost var c := longestCycle[..cnt];
      ProgressBroken(G0, arcs, list, printed, reported, j, c) by {
        LinkedDistinct(list, graph, next, prev);
      }
      BusyFewer(arcs, n);
      var lines: seq<int>, i := [], 0;
      while i < cnt
        modifies {}
        invariant 0 <= i <= cnt && lines == c[..i]
      {
        lines := lines + [longestCycle[i]];
        i := i + 1;
      }
      assert c[..cnt] == c;
      reported := reported + [lines];
      assert Core();
      RemoveNode(n, j);
      assert Logs();
      ClearCycle();
      assert Logs();
    }

    lemma NodeHere(j: int)
      requires Valid() && 0 <= j < |list|
      ensures 0 <= list[j] < |acyclic| == |arcs| == |next| && next[list[j]] == Entry(list, j + 1)
    {
      LinkedHere(list, graph, next, prev, j);
    }

    lemma NodesHere()
      requires Valid()
      ensures forall i :: 0 <= i < |list| ==> 0 <= list[i] < |next|
    {
      ListNodes(list, graph, next, prev);
    }

    /** Does node n lie on a cycle?  Its length, or 0. */
    method Look(n: int, ghost j: int, ghost G0: Arcs) returns (cnt: int)
      requires Valid() && Progress(G0, arcs, list, printed, reported) && Logs()
      requires 0 <= j < |list| && n == list[j] && 0 <= n < |acyclic| && !acyclic[n]
      modifies this`mark, this`nodest, cycleBuf, longestCycle
      ensures Core() && Logs() && cnt >= 0 && Logged(n, cnt)
      ensures cnt == 0 ==> Known(arcs, acyclic[n := true]) && |acyclic| == |arcs|
    {
      hide Busy, Futile, Genuine, InOrder, Known, DoublyLinked, Marking, MoreDead, Parted, Path, Proper, Pruned, RefsOk,
        SimpleCycle;
      StartSearch(G0, arcs, list, printed, F(), n);
      assert OnPath(n, [n]) && Logged(n, 0);
      assert !nodest[n];
      assert [n][..0] == [];
      cnt := FindCycle(n, n, 0, 0, [n]);
      assert Logs();
      if cnt == 0 {
        EndSearch(arcs, Flags(mark, nodest[n := true], acyclic), n);
      }
    }

    /** Nodes that no arc leads to are taken out until there are none. */
    method SweepAll(ghost G0: Arcs)
      requires Valid() && Progress(G0, arcs, list, printed, reported) && (cycleBuf != null ==> Logs()) && graph != NULL
      modifies this`printed, this`refcnt, this`arcs, this`graph, this`next, this`prev, this`list
      ensures Valid() && Progress(G0, arcs, list, printed, reported) && (cycleBuf != null ==> Logs())
      ensures |list| <= old(|list|) && (graph == NULL <==> list == [])
      ensures forall i :: 0 <= i < |list| ==> 0 <= list[i] < |refcnt| && refcnt[list[i]] != 0
    {
      hide Busy, Progress, Valid;
      var cnt := Sweep(G0);
      assert cycleBuf != null ==> Logs();
      while graph != NULL && cnt != 0
        invariant Valid() && Progress(G0, arcs, list, printed, reported) && |list| <= old(|list|) && cnt >= 0
        invariant cnt == 0 ==> forall i :: 0 <= i < |list| ==> 0 <= list[i] < |refcnt| && refcnt[list[i]] != 0
        invariant cycleBuf != null ==> Logs()
        decreases |list|, cnt
      {
        cnt := Sweep(G0);
        assert cycleBuf != null ==> Logs();
      }
      Empty();
    }

    lemma Empty()
      requires Valid()
      ensures graph == NULL <==> list == []
    {
      if list != [] {
        LinkedHere(list, graph, next, prev, 0);
      }
    }

    /** Room for the two logs: as many entries as there are nodes left. */
    method Allocate(ghost G0: Arcs)
      requires Valid() && Progress(G0, arcs, list, printed, reported) && list != []
      modifies this`cycleBuf, this`longestCycle
      ensures Valid() && Logs() && fresh(cycleBuf) && fresh(longestCycle)
    {
      hide Busy, ClearOf, Distinct, Genuine, InOrder, Known, LinkedAt, Marking, Parted, Proper, RefsOk, Sized;
      var n, cnt := graph, 0;
      assert n == Entry(list, cnt);
      while n != NULL
        modifies {}
        invariant 0 <= cnt <= |list| && n == Entry(list, cnt)
        decreases |list| - cnt
      {
        assert cnt < |list| && n == list[cnt];
        NodeHere(cnt);
        cnt := cnt + 1;
        n := next[n];
      }
      assert cnt == |list| by { NodesHere(); }
      BusyLeft(G0, arcs, list, printed);
      cycleBuf := new int[cnt];
      longestCycle := new int[cnt];
      assert Valid() && Logs();
    }

    /** tsort: every node is written once, in topological order but for the
        cycles that have to be broken. */
    method Tsort()
      requires Valid() && cycleBuf == null && Progress(arcs, arcs, list, printed, reported)
      modifies this`printed, this`refcnt, this`arcs, this`graph, this`next, this`prev, this`list
      modifies this`mark, this`nodest, this`acyclic, this`reported, this`cycleBuf, this`longestCycle
      ensures list == [] && Progress(old(arcs), arcs, [], printed, reported)
    {
      hide *;
      ghost var G0 := arcs;
      Empty();
      while graph != NULL
        invariant Valid() && Progress(G0, arcs, list, printed, reported)
        invariant cycleBuf != null ==> Logs() && fresh(cycleBuf) && fresh(longestCycle)
        invariant graph == NULL <==> list == []
        decreases |list|
      {
        SweepAll(G0);
        if graph == NULL {
          break;
        }
        if cycleBuf == null {
          Allocate(G0);
        }
        BreakCycle(G0);
        Empty();
      }
    }

    // -------------------------------------------------------------- building it

    /** Nothing has been written; all nodes are in the graph, one for each name. */
    ghost predicate Building()
      reads this
    {
      && Valid() && printed == [] && reported == [] && cycleBuf == null && NoneTrue(acyclic) && NoneTrue(nodest)
      && AllListed(arcs, list) && HashOk(hashtab, name)
    }

    constructor ()
      ensures Building() && name == []
    {
      name, next, prev, arcs, refcnt, mark, nodest, acyclic := [], [], [], [], [], [], [], [];
      graph, hashtab, cycleBuf, longestCycle, printed, reported, list := NULL, map[], null, null, [], [], [];
    }

    /** get_node: the node of that name, created if there is none. */
    method GetNode(s: string) returns (n: int)
      requires Building()
      modifies this`name, this`next, this`prev, this`arcs, this`refcnt, this`mark, this`nodest, this`acyclic
      modifies this`graph, this`hashtab, this`list
      ensures Building() && 0 <= n < |name| && name[n] == s && old(name) <= name
      ensures name == if s in old(name) then old(name) else old(name) + [s]
      ensures ArcNames() == old(ArcNames())
    {
      hide Valid, ArcNames, NoneTrue;
      if s in hashtab {
        return hashtab[s];
      }
      n := Create(s);
    }

    /** The arcs between names; none while the graph is not in order. */
    ghost function ArcNames(): (p: set<(string, string)>)
      reads this
    {
      if |name| == |arcs| && Proper(arcs) then Named(name, arcs) else {}
    }

    /** A new node at the head of the graph. */
    method Create(s: string) returns (n: int)
      requires Building() && s !in hashtab
      modifies this`name, this`next, this`prev, this`arcs, this`refcnt, this`mark, this`nodest, this`acyclic
      modifies this`graph, this`hashtab, this`list
      ensures Building() && n == old(|name|) && name == old(name) + [s]
      ensures ArcNames() == old(ArcNames())
    {
      hide AllListed, ClearOf, HashOk, Known, DoublyLinked, Marking, Named, NoneTrue, Proper, RefsOk, Sized;
      n := |name|;
      assert |name| == |next| == |arcs| && Proper(arcs);
      GraphIn(|name|, next, prev, arcs, refcnt, F(), graph, list);
      NamedNode(name, arcs, s);
      HashIn(hashtab, name, s);
      ListedIn(arcs, list);
      Allot(s);
      LinkFirst(n);
      hashtab := hashtab[s := n];
    }

    /** Room for a node of that name, without arcs and flags. */
    method Allot(s: string)
      modifies this`name, this`arcs, this`refcnt, this`mark, this`nodest, this`acyclic
      ensures name == old(name) + [s] && arcs == old(arcs) + [[]] && refcnt == old(refcnt) + [0]
      ensures mark == old(mark) + [false] && nodest == old(nodest) + [false] && acyclic == old(acyclic) + [false]
    {
      name, arcs, refcnt := name + [s], arcs + [[]], refcnt + [0];
      mark, nodest, acyclic := mark + [false], nodest + [false], acyclic + [false];
    }

    /** Node n comes first in the graph. */
    method LinkFirst(n: int)
      requires graph == NULL || 0 <= graph < |prev|
      modifies this`next, this`prev, this`graph, this`list
      ensures next == old(next) + [old(graph)] && graph == n && list == [n] + old(list)
      ensures prev == (if old(graph) == NULL then old(prev) else old(prev)[old(graph) := n]) + [NULL]
    {
      next := next + [graph];
      if graph != NULL {
        prev := prev[graph := n];
      }
      prev := prev + [NULL];
      graph, list := n, [n] + list;
    }

    /** add_arc: an arc between two names, if they differ and it is new. */
    method AddArc(s1: string, s2: string)
      requires Building()
      modifies this`name, this`next, this`prev, this`arcs, this`refcnt, this`mark, this`nodest, this`acyclic
      modifies this`graph, this`hashtab, this`list
      ensures Building() && old(name) <= name
      ensures forall s :: s in name <==> s in old(name) || s == s1 || s == s2
      ensures ArcNames() == old(ArcNames()) + if s1 == s2 then {} else {(s1, s2)}
    {
      hide *;
      var n1 := GetNode(s1);
      if s1 == s2 {
        return;
      }
      ghost var name1 := name;
      var n2 := GetNode(s2);
      assert name[n1] == name1[n1] && n1 != n2;
      Link(n1, n2);
    }

    /** An arc from n1 to n2, if there is none yet. */
    method Link(n1: int, n2: int)
      requires Building() && 0 <= n1 < |name| && 0 <= n2 < |name| && n1 != n2
      modifies this`arcs, this`refcnt
      ensures Building() && ArcNames() == old(ArcNames()) + {(name[n1], name[n2])}
    {
      hide AllListed, ClearOf, HashOk, Known, DoublyLinked, Marking, Named, NoneTrue, Proper, RefsOk;
      var i := 0;
      while i < |arcs[n1]|
        modifies {}
        invariant 0 <= i <= |arcs[n1]| && n2 !in arcs[n1][..i]
      {
        if arcs[n1][i] == n2 {
          NamedHas(name, arcs, n1, n2);
          return;
        }
        i := i + 1;
      }
      assert arcs[n1][..i] == arcs[n1];
      ArcIn(arcs, refcnt, n1, n2);
      NamedArc(name, arcs, n1, n2);
      ListedStill(arcs, arcs[n1 := arcs[n1] + [n2]], list);
      arcs := arcs[n1 := arcs[n1] + [n2]];
      refcnt := refcnt[n2 := refcnt[n2] + 1];
      NoneKnown(arcs, acyclic);
    }
  }

  // ------------------------------------------------------------- the whole run

  /** main: the words are pairs, tail and head of an arc; an odd number of them
      is an error.  The lines written and the cycles complained of. */
  method Run(words: seq<string>) returns (ok: bool, lines: seq<string>, cycles: seq<seq<string>>)
    ensures ok <==> |words| % 2 == 0
    ensures ok ==> Sorted(words, lines, cycles)
  {
    hide AllListed, ClearOf, CyclesOf, HashOk, Known, DoublyLinked, Marking, Named, NamesOf, NoneTrue, Progress, Proper,
      RefsOk, Sized, Sorted;
    lines, cycles := [], [];
    var g := new Sorter();
    var i := 0;
    assert g.ArcNames() == PairsTo(words, 0) by {
      NoNames(g.name, g.arcs);
    }
    assert NamesTo(words, 0, g.name);
    while i + 1 < |words|
      invariant 0 <= i <= |words| && i % 2 == 0 && g.Building() && fresh(g)
      invariant g.ArcNames() == PairsTo(words, i) && NamesTo(words, i, g.name)
    {
      ghost var before := g.name;
      g.AddArc(words[i], words[i + 1]);
      MoreWords(words, i, before, g.name);
      assert g.ArcNames() == PairsTo(words, i + 2);
      i := i + 2;
    }
    ok := i == |words|;
    if ok {
      ghost var G0 := g.arcs;
      assert g.Valid() && g.cycleBuf == null && |g.name| == |G0| && Proper(G0) && Progress(G0, G0, g.list, g.printed, g.reported)
             && Named(g.name, G0) == g.ArcNames() && HashOk(g.hashtab, g.name) by {
        ProgressFirst(G0, g.list);
      }
      g.Tsort();
      RunSorted(words, g.hashtab, g.name, G0, g.arcs, g.printed, g.reported);
      lines, cycles := NamesOf(g.name, g.printed), CyclesOf(g.name, g.reported);
    }
  }
}
