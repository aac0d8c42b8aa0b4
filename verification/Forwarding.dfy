/** Where the collector moves each block, and what becomes of pointers. */
module Forwarding {
  import opened Heap

  /** Dynamic block i is marked: it stays in use. */
  predicate Stays(m: seq<Descr>, W: World, i: int)
    requires 0 <= i < |W.dyn|
  {
    0 < W.dyn[i] < |m| && m[W.dyn[i]].mark
  }

  /** Marked blocks are packed from lo upwards: where block i would go. */
  function Room(m: seq<Descr>, W: World, i: int): (a: int)
    requires 0 <= i <= |W.dyn|
    decreases i
  {
    if i == 0 then W.lo
    else Room(m, W, i - 1) + if Stays(m, W, i - 1) then BkSize(m[W.dyn[i - 1]]) else 0
  }

  /** Where the block with title t goes.  Permanent blocks stay. */
  ghost function NewHome(m: seq<Descr>, W: World, t: int): (a: int) {
    if t in W.dyn then
      var i :| 0 <= i < |W.dyn| && W.dyn[i] == t;
      Room(m, W, i)
    else t
  }

  /** Where what is at address a goes: its place in its block is kept. */
  ghost function NewAddr(m: seq<Descr>, W: World, a: int): (b: int)
    requires 0 <= a < |m|
  {
    NewHome(m, W, TopOf(m, a)) + (a - TopOf(m, a))
  }

  /** A descriptor with its pointer renamed. */
  ghost function Renamed(m: seq<Descr>, W: World, d: Descr): (e: Descr) {
    if d.ptr && 0 < d.a < |m| then d.(a := NewAddr(m, W, d.a)) else d
  }

  // ---------------------------------------------------------- about new homes

  lemma {:induction false} RoomBelow(m: seq<Descr>, W: World, i: int)
    requires Tiled(m, W) && 0 <= i < |W.dyn|
    ensures BlockAt(m, W, i)
    ensures W.lo <= Room(m, W, i) <= W.dyn[i] && Room(m, W, i) <= Room(m, W, i + 1) <= After(W, i)
    decreases i
  {
    assert BlockAt(m, W, i);
    if i > 0 {
      RoomBelow(m, W, i - 1);
    }
  }

  /** Blocks keep their order and do not overlap at their new places. */
  lemma {:induction false} RoomOrder(m: seq<Descr>, W: World, i: int, j: int)
    requires Tiled(m, W) && 0 <= i < j <= |W.dyn| && Stays(m, W, i)
    ensures BlockAt(m, W, i) && Room(m, W, i) + BkSize(m[W.dyn[i]]) <= Room(m, W, j)
    decreases j
  {
    RoomBelow(m, W, i);
    if i < j - 1 {
      RoomOrder(m, W, i, j - 1);
      RoomBelow(m, W, j - 1);
    }
  }

  lemma HomeIs(m: seq<Descr>, W: World, i: int)
    requires Tiled(m, W) && 0 <= i < |W.dyn|
    ensures NewHome(m, W, W.dyn[i]) == Room(m, W, i)
  {
    var j :| 0 <= j < |W.dyn| && W.dyn[j] == W.dyn[i] && NewHome(m, W, W.dyn[i]) == Room(m, W, j);
    TitlesDiffer(m, W, i, j);
  }

  lemma HomeStays(m: seq<Descr>, W: World, u: int)
    requires u !in W.dyn
    ensures NewHome(m, W, u) == u
  {
  }

  // ---------------------------------------------------- the forwarding addresses

  /** Title i of the first k carries its new address. */
  ghost predicate FwdAt(m: seq<Descr>, n: seq<Descr>, W: World, i: int, k: int)
    requires 0 <= i < |W.dyn|
  {
    && 0 < W.dyn[i] < |m| == |n|
    && n[W.dyn[i]] == if i < k && Stays(m, W, i) then m[W.dyn[i]].(a := Room(m, W, i)) else m[W.dyn[i]]
  }

  /** n is m with new addresses in the first k titles of marked blocks. */
  ghost predicate Forwarded(m: seq<Descr>, n: seq<Descr>, W: World, k: int) {
    && |n| == |m|
    && (forall x :: 0 <= x < |m| && x !in W.dyn ==> n[x] == m[x])
    && (forall i :: 0 <= i < |W.dyn| ==> FwdAt(m, n, W, i, k))
  }

  /** Every title of a marked block carries its new address. */
  ghost predicate Headed(m: seq<Descr>, n: seq<Descr>, W: World) {
    |n| == |m| && forall i :: 0 <= i < |W.dyn| ==> FwdAt(m, n, W, i, |W.dyn|)
  }

  /** Blocks below the compression barrier do not move. */
  ghost predicate Barrier(m: seq<Descr>, W: World, mv: int) {
    forall i :: 0 <= i < |W.dyn| && W.dyn[i] < mv ==> Stays(m, W, i) && Room(m, W, i) == W.dyn[i]
  }

  /** The blocks before block k are marked and stay where they are. */
  ghost predicate Settled(m: seq<Descr>, W: World, k: int) {
    0 <= k <= |W.dyn| && forall i :: 0 <= i < k ==> Stays(m, W, i) && Room(m, W, i) == W.dyn[i]
  }

  lemma SettledNext(m: seq<Descr>, W: World, k: int)
    requires Tiled(m, W) && 0 <= k < |W.dyn| && Settled(m, W, k) && Stays(m, W, k)
    requires Room(m, W, k) == W.dyn[k]
    ensures Settled(m, W, k + 1)
  {
    assert BlockAt(m, W, k);
  }

  lemma SettledRoom(m: seq<Descr>, W: World, k: int)
    requires Tiled(m, W) && Settled(m, W, k) && k < |W.dyn|
    ensures Room(m, W, k) == W.dyn[k]
  {
    if k > 0 {
      assert BlockAt(m, W, k - 1);
    }
  }

  lemma SettledForward(m: seq<Descr>, W: World, k: int)
    requires Tiled(m, W) && Homed(m, W) && Settled(m, W, k)
    ensures Forwarded(m, m, W, k)
  {
    forall i | 0 <= i < |W.dyn|
      ensures FwdAt(m, m, W, i, k)
    {
      assert BlockAt(m, W, i);
    }
  }

  /** The barrier is the first dead block; if nothing is dead any will do. */
  lemma SettledBarrier(m: seq<Descr>, W: World, k: int, mv: int)
    requires Tiled(m, W) && Settled(m, W, k) && (k < |W.dyn| ==> mv == W.dyn[k])
    ensures Barrier(m, W, mv)
  {
    if k < |W.dyn| {
      forall i | k < i < |W.dyn|
        ensures W.dyn[k] < W.dyn[i]
      {
        Ascending(m, W, k, i);
      }
    }
  }

  /** One more title has its new address, or needs none. */
  lemma ForwardNext(m: seq<Descr>, n: seq<Descr>, n': seq<Descr>, W: World, k: int)
    requires Tiled(m, W) && 0 <= k < |W.dyn| && Forwarded(m, n, W, k)
    requires 0 < W.dyn[k] < |m| && |n'| == |n|
    requires n' == if Stays(m, W, k) then n[W.dyn[k] := n[W.dyn[k]].(a := Room(m, W, k))] else n
    ensures Forwarded(m, n', W, k + 1)
  {
    var next := k + 1;
    forall i | 0 <= i < |W.dyn|
      ensures FwdAt(m, n', W, i, next)
    {
      assert FwdAt(m, n, W, i, k);
      if i != k && W.dyn[i] == W.dyn[k] {
        TitlesDiffer(m, W, i, k);
      }
    }
  }

  /** The next block follows at once; there is none when that is where free
      storage begins. */
  lemma NextTitle(m: seq<Descr>, W: World, k: int)
    requires Tiled(m, W) && 0 <= k < |W.dyn|
    ensures 0 < W.dyn[k] < |m| && BkSize(m[W.dyn[k]]) > 0 && W.dyn[k] != W.hi
    ensures W.dyn[k] + BkSize(m[W.dyn[k]]) == (if k + 1 < |W.dyn| then W.dyn[k + 1] else W.hi)
    ensures k + 1 < |W.dyn| ==> 0 < W.dyn[k + 1] < |m| && W.dyn[k + 1] != W.hi
  {
    InRegion(m, W, k);
    if k < |W.dyn| - 1 {
      InRegion(m, W, k + 1);
    }
  }

  lemma RoomNext(m: seq<Descr>, W: World, k: int)
    requires 0 <= k < |W.dyn| && 0 < W.dyn[k] < |m|
    ensures Stays(m, W, k) <==> m[W.dyn[k]].mark
    ensures Room(m, W, k + 1) == Room(m, W, k) + if m[W.dyn[k]].mark then BkSize(m[W.dyn[k]]) else 0
  {
  }

  lemma ForwardLook(m: seq<Descr>, n: seq<Descr>, W: World, k: int)
    requires 0 <= k < |W.dyn| && Forwarded(m, n, W, k)
    ensures 0 < W.dyn[k] < |n| == |m| && n[W.dyn[k]] == m[W.dyn[k]]
  {
    assert FwdAt(m, n, W, k, k);
  }
}
