/** Live blocks slide down over the dead ones. */
module Sliding {
  import opened Heap
  import opened Forwarding
  import opened Relocation

  /** Block i as it was in n0 is now at its new place in n, without its mark. */
  ghost predicate SlidAt(m: seq<Descr>, n0: seq<Descr>, n: seq<Descr>, W: World, i: int)
    requires 0 <= i < |W.dyn|
  {
    var from, to := W.dyn[i], Room(m, W, i);
    0 < from < |m| && Same(n0, n, from, to, BkSize(m[from]))
  }

  /** The block of the given size at from in n0 is at to in n. */
  ghost predicate Same(n0: seq<Descr>, n: seq<Descr>, from: int, to: int, size: int) {
    && 0 < to && 0 < from && 0 < size && from + size <= |n0| && to + size <= |n|
    && n[to] == n0[from].(mark := false)
    && n[to + 1..to + size] == n0[from + 1..from + size]
  }

  /** The first k blocks have been moved. */
  ghost predicate Slid(m: seq<Descr>, n0: seq<Descr>, n: seq<Descr>, W: World, k: int) {
    && 0 <= k <= |W.dyn| && |n| == |n0| == |m| && 0 <= W.lo <= Ahead(W, k) <= |n|
    && n[..W.lo] == n0[..W.lo] && n[Ahead(W, k)..] == n0[Ahead(W, k)..]
    && forall i :: 0 <= i < k && Stays(m, W, i) ==> SlidAt(m, n0, n, W, i)
  }

  function Ahead(W: World, k: int): int
    requires 0 <= k <= |W.dyn|
  {
    if k < |W.dyn| then W.dyn[k] else W.hi
  }

  /** One block has been moved down and has lost its mark. */
  ghost predicate OneMove(n: seq<Descr>, n': seq<Descr>, from: int, to: int, size: int) {
    && |n'| == |n| && to <= from && Same(n, n', from, to, size)
    && n'[..to] == n[..to] && n'[from + size..] == n[from + size..]
  }

  // ------------------------------------------------------------------- lemmas

  lemma SlidNone(m: seq<Descr>, n0: seq<Descr>, W: World)
    requires Tiled(m, W) && |n0| == |m|
    ensures Slid(m, n0, n0, W, 0)
  {
    if W.dyn != [] {
      InRegion(m, W, 0);
    }
  }

  /** A dead block is passed over. */
  lemma SlidOver(m: seq<Descr>, n0: seq<Descr>, n: seq<Descr>, W: World, k: int)
    requires Tiled(m, W) && 0 <= k < |W.dyn| && Slid(m, n0, n, W, k) && !Stays(m, W, k)
    ensures Slid(m, n0, n, W, k + 1)
  {
    InRegion(m, W, k);
    Suffix(n0, n, W.dyn[k], After(W, k));
  }

  lemma Suffix(n0: seq<Descr>, n: seq<Descr>, i: int, j: int)
    requires |n0| == |n| && 0 <= i <= j <= |n| && n[i..] == n0[i..]
    ensures n[j..] == n0[j..]
  {
    assert n[j..] == n[i..][j - i..] && n0[j..] == n0[i..][j - i..];
  }

  lemma Prefix(n0: seq<Descr>, n: seq<Descr>, i: int, j: int)
    requires |n0| == |n| && 0 <= i <= j <= |n| && n[..j] == n0[..j]
    ensures n[..i] == n0[..i]
  {
    assert n[..i] == n[..j][..i] && n0[..i] == n0[..j][..i];
  }

  /** What the next block's title says before it moves. */
  lemma SlidLook(m: seq<Descr>, n0: seq<Descr>, n: seq<Descr>, W: World, k: int, mv: int)
    requires Tiled(m, W) && 0 <= k < |W.dyn| && Slid(m, n0, n, W, k) && Heads(m, n0, W) && Barrier(m, W, mv)
    ensures var t := W.dyn[k];
            && 0 < t < |n| && n[t] == n0[t] && BkSize(n[t]) == BkSize(m[t]) && (n[t].mark <==> Stays(m, W, k))
            && (Stays(m, W, k) ==> n[t].a == Room(m, W, k) && 0 < Room(m, W, k) <= t)
            && (t < mv ==> Stays(m, W, k) && Room(m, W, k) == t)
            && t + BkSize(m[t]) <= |n|
  {
    var t := W.dyn[k];
    InRegion(m, W, k);
    RoomBelow(m, W, k);
    HomeIs(m, W, k);
    assert HeadAt(m, n0, W, t);
    assert n[t] == n[t..][0] && n0[t] == n0[t..][0];
  }

  lemma SlidStill(m: seq<Descr>, n0: seq<Descr>, n: seq<Descr>, n': seq<Descr>, W: World, k: int, i: int)
    requires Tiled(m, W) && 0 <= i < k < |W.dyn| && Stays(m, W, i) && Stays(m, W, k)
    requires SlidAt(m, n0, n, W, i) && OneMove(n, n', W.dyn[k], Room(m, W, k), BkSize(m[W.dyn[k]]))
    ensures SlidAt(m, n0, n', W, i)
  {
    RoomOrder(m, W, i, k);
    var to, size := Room(m, W, i), BkSize(m[W.dyn[i]]);
    var b := Room(m, W, k);
    assert n'[to] == n'[..b][to] && n[to] == n[..b][to];
    assert n'[to + 1..to + size] == n'[..b][to + 1..to + size];
    assert n[to + 1..to + size] == n[..b][to + 1..to + size];
  }

  /** A live block has been moved. */
  lemma SlidNext(m: seq<Descr>, n0: seq<Descr>, n: seq<Descr>, n': seq<Descr>, W: World, k: int)
    requires Tiled(m, W) && 0 <= k < |W.dyn| && Slid(m, n0, n, W, k) && Stays(m, W, k)
    requires OneMove(n, n', W.dyn[k], Room(m, W, k), BkSize(m[W.dyn[k]]))
    ensures Slid(m, n0, n', W, k + 1)
  {
    hide Same, OneMove, SlidAt, Room;
    InRegion(m, W, k);
    RoomBelow(m, W, k);
    forall i | 0 <= i < k + 1 && Stays(m, W, i)
      ensures SlidAt(m, n0, n', W, i)
    {
      if i < k {
        SlidStill(m, n0, n, n', W, k, i);
      } else {
        SlidHere(m, n0, n, n', W, k);
      }
    }
    MoveFrame(n, n', W.dyn[k], Room(m, W, k), BkSize(m[W.dyn[k]]));
    Prefix(n, n', W.lo, Room(m, W, k));
    Suffix(n0, n, W.dyn[k], After(W, k));
  }

  lemma MoveFrame(n: seq<Descr>, n': seq<Descr>, from: int, to: int, size: int)
    requires OneMove(n, n', from, to, size)
    ensures |n| == |n'| && 0 < to <= from && from + size <= |n|
    ensures n'[..to] == n[..to] && n'[from + size..] == n[from + size..]
  {
  }

  lemma SlidHere(m: seq<Descr>, n0: seq<Descr>, n: seq<Descr>, n': seq<Descr>, W: World, k: int)
    requires 0 <= k < |W.dyn| && Slid(m, n0, n, W, k) && 0 < W.dyn[k] < |m|
    requires OneMove(n, n', W.dyn[k], Room(m, W, k), BkSize(m[W.dyn[k]]))
    ensures SlidAt(m, n0, n', W, k)
  {
    var from, size := W.dyn[k], BkSize(m[W.dyn[k]]);
    assert n[from] == n[from..][0] && n0[from] == n0[from..][0];
    assert n[from + 1..from + size] == n[from..][1..size];
    assert n0[from + 1..from + size] == n0[from..][1..size];
  }

  lemma MoveMade(n: seq<Descr>, n1: seq<Descr>, n': seq<Descr>, from: int, to: int, size: int)
    requires 0 < to <= from && 0 < size && from + size <= |n| == |n'|
    requires n1 == n[to := n[from].(mark := false)]
    requires forall x :: 0 <= x < |n| ==> n'[x] == Copied(n, n1, from, to, size, x)
    ensures OneMove(n, n', from, to, size)
  {
    assert n'[to + 1..to + size] == n[from + 1..from + size];
    assert n'[..to] == n[..to];
    assert n'[from + size..] == n[from + size..];
  }

  function Copied(n: seq<Descr>, n1: seq<Descr>, from: int, to: int, size: int, x: int): Descr
    requires 0 < to <= from && from + size <= |n| == |n1| && 0 <= x < |n|
  {
    if to < from && to < x < to + size then n[x - to + from] else n1[x]
  }

  /** Block last is the last live one among the first k. */
  ghost predicate LastLive(m: seq<Descr>, W: World, k: int, last: int) {
    && 0 <= k <= |W.dyn| && last < k
    && (last < 0 ==> forall i :: 0 <= i < k ==> !Stays(m, W, i))
    && (last >= 0 ==> Stays(m, W, last) && Room(m, W, k) == Room(m, W, last) + BkSize(m[W.dyn[last]]))
  }

  lemma LastNone(m: seq<Descr>, W: World)
    ensures LastLive(m, W, 0, -1)
  {
  }

  lemma LastNext(m: seq<Descr>, W: World, k: int, last: int)
    requires LastLive(m, W, k, last) && k < |W.dyn|
    ensures LastLive(m, W, k + 1, if Stays(m, W, k) then k else last)
  {
  }

  /** Free storage begins behind the last live block. */
  lemma LastTitle(m: seq<Descr>, n0: seq<Descr>, n: seq<Descr>, W: World, last: int)
    requires Tiled(m, W) && Heads(m, n0, W) && Slid(m, n0, n, W, |W.dyn|) && LastLive(m, W, |W.dyn|, last) && last >= 0
    ensures 0 < Room(m, W, last) < |n|
    ensures Room(m, W, last) + BkSize(n[Room(m, W, last)]) == Room(m, W, |W.dyn|)
  {
    assert SlidAt(m, n0, n, W, last);
    assert HeadAt(m, n0, W, W.dyn[last]) by {
      assert BlockAt(m, W, last);
    }
  }
}
