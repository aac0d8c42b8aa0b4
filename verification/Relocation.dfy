/** Pointers in live storage are renamed while the titles carry the new
    addresses. */
module Relocation {
  import opened Heap
  import opened Marking
  import opened Roots
  import opened Forwarding

  /** A pointer that is followed leads to a marked block or a permanent one. */
  ghost predicate TargetOk(m: seq<Descr>, W: World, d: Descr) {
    d.ptr && d.a != 0 ==>
      && 0 < d.a < |m|
      && var u := TopOf(m, d.a);
         0 < u && d.a <= u + Traced(m[u]) && Leads(m, W, u)
  }

  /** Block u is marked, or is permanent. */
  ghost predicate Leads(m: seq<Descr>, W: World, u: int) {
    0 < u < |m| && m[u].ttl && if u in W.dyn then m[u].mark else u in W.perm && u < W.lo && m[u].a == u
  }

  /** Block t may be relocated. */
  ghost predicate Followed(m: seq<Descr>, W: World, t: int) {
    && 0 < t < |m| && m[t].ttl && 0 <= Traced(m[t]) && t + Traced(m[t]) < |m|
    && (forall j :: SlotOf(m, t, j) ==> !m[j].ttl && TargetOk(m, W, m[j]))
  }

  /** n has the titles of m, with new addresses where blocks lead on. */
  ghost predicate Heads(m: seq<Descr>, n: seq<Descr>, W: World) {
    && |n| == |m| && (forall x :: 0 <= x < |m| ==> n[x].ttl == m[x].ttl)
    && (forall u :: 0 <= u < |m| && m[u].ttl ==> HeadAt(m, n, W, u))
  }

  ghost predicate HeadAt(m: seq<Descr>, n: seq<Descr>, W: World, u: int)
    requires 0 <= u < |m| == |n|
  {
    n[u] == m[u].(a := n[u].a) && (Leads(m, W, u) ==> n[u].a == NewHome(m, W, u))
  }

  /** The blocks whose descriptors have been renamed are those in done. */
  ghost predicate SlotIn(m: seq<Descr>, done: set<int>, x: int)
    requires 0 <= x < |m|
  {
    TopOf(m, x) in done && SlotOf(m, TopOf(m, x), x)
  }

  ghost predicate Relocated(m: seq<Descr>, n0: seq<Descr>, n: seq<Descr>, W: World, done: set<int>) {
    && |n| == |n0| == |m|
    && forall x :: 0 <= x < |m| ==> n[x] == if SlotIn(m, done, x) then Renamed(m, W, n0[x]) else n0[x]
  }

  /** One block: its first descriptors down to place i have been renamed. */
  ghost predicate OneBlock(m: seq<Descr>, n0: seq<Descr>, n: seq<Descr>, W: World, t: int, i: int, count: int) {
    && |n| == |n0|
    && forall x :: 0 <= x < |n0| ==> n[x] == if t + i < x <= t + count then Renamed(m, W, n0[x]) else n0[x]
  }

  /** No descriptor that is followed from block t is a null pointer. */
  ghost predicate NoNulls(m: seq<Descr>, t: int) {
    forall j :: 0 <= j < |m| && SlotOf(m, t, j) ==> !(m[j].ptr && m[j].a == 0)
  }

  /** Null pointers are below the barrier, or there are none in these blocks. */
  ghost predicate NullsBelow(m: seq<Descr>, S: set<int>, mv: int) {
    mv > 0 || forall t :: t in S ==> NoNulls(m, t)
  }

  // ------------------------------------------------------------------- lemmas

  /** A null pointer passes the test against a barrier at 0, and no title is to
      be found for it. */
  lemma NullUntitled(m: seq<Descr>, d: Descr)
    requires d.ptr && d.a == 0 && m != [] && !m[0].ttl
    ensures !(d.a < 0) && TopOf(m, d.a) == -1
  {
  }

  /** What relocating one descriptor looks at. */
  lemma RenameLook(m: seq<Descr>, n: seq<Descr>, W: World, d: Descr, mv: int)
    requires Heads(m, n, W) && TargetOk(m, W, d) && Tiled(m, W) && Barrier(m, W, mv)
    requires mv > 0 || !(d.ptr && d.a == 0)
    ensures d.ptr && d.a >= mv ==>
              && 0 < d.a < |n| && TopOf(n, d.a) >= 0
              && n[TopOf(n, d.a)].a == NewHome(m, W, TopOf(m, d.a)) && TopOf(n, d.a) == TopOf(m, d.a)
              && Renamed(m, W, d) == d.(a := d.a - TopOf(n, d.a) + n[TopOf(n, d.a)].a)
    ensures !(d.ptr && d.a >= mv) ==> Renamed(m, W, d) == d
  {
    hide NewHome;
    if d.ptr && d.a >= mv {
      TopSame(m, n, d.a);
      assert HeadAt(m, n, W, TopOf(m, d.a));
    } else if d.ptr && d.a != 0 {
      LowPointer(m, W, d.a, mv);
    }
  }

  /** Pointers below the barrier stay as they are. */
  lemma LowPointer(m: seq<Descr>, W: World, a: int, mv: int)
    requires Tiled(m, W) && Barrier(m, W, mv) && 0 < a < |m| && a < mv && TopOf(m, a) > 0
    ensures NewAddr(m, W, a) == a
  {
    var u := TopOf(m, a);
    if u in W.dyn {
      var i :| 0 <= i < |W.dyn| && W.dyn[i] == u;
      HomeIs(m, W, i);
    }
  }

  lemma OneNone(m: seq<Descr>, n0: seq<Descr>, W: World, t: int, count: int)
    ensures OneBlock(m, n0, n0, W, t, count, count)
  {
  }

  lemma OneNext(m: seq<Descr>, n0: seq<Descr>, n: seq<Descr>, n': seq<Descr>, W: World, t: int, i: int, count: int)
    requires OneBlock(m, n0, n, W, t, i, count) && 0 < i <= count && 0 <= t && t + i < |n|
    requires n' == n[t + i := Renamed(m, W, n0[t + i])]
    ensures OneBlock(m, n0, n', W, t, i - 1, count)
  {
    hide Renamed;
  }

  lemma OneLook(m: seq<Descr>, n0: seq<Descr>, n: seq<Descr>, W: World, t: int, i: int, count: int)
    requires OneBlock(m, n0, n, W, t, i, count) && 0 < i <= count && 0 <= t && t + i < |n0|
    ensures |n| == |n0| && n[t + i] == n0[t + i]
  {
  }

  /** Renaming a block's descriptors leaves titles alone. */
  lemma HeadsStill(m: seq<Descr>, n0: seq<Descr>, n: seq<Descr>, W: World, t: int, i: int, count: int)
    requires Heads(m, n0, W) && OneBlock(m, n0, n, W, t, i, count) && Followed(m, W, t) && 0 <= i
    requires count == Traced(m[t])
    ensures Heads(m, n, W)
  {
    hide NewHome;
    forall x | 0 <= x < |m| && t + i < x <= t + count
      ensures !m[x].ttl
    {
      assert SlotOf(m, t, x);
    }
    forall u | 0 <= u < |m| && m[u].ttl
      ensures HeadAt(m, n, W, u)
    {
      assert HeadAt(m, n0, W, u);
    }
  }

  lemma RelocatedNone(m: seq<Descr>, n0: seq<Descr>, W: World)
    requires |n0| == |m|
    ensures Relocated(m, n0, n0, W, {})
  {
  }

  lemma SlotTop(m: seq<Descr>, W: World, t: int, x: int)
    requires Followed(m, W, t) && t < x <= t + Traced(m[t])
    ensures 0 <= x < |m| && TopOf(m, x) == t
  {
    forall i | t < i <= x
      ensures !m[i].ttl
    {
      assert SlotOf(m, t, i);
    }
    TopIs(m, t, x);
  }

  /** One more block is done. */
  lemma RelocatedNext(m: seq<Descr>, n0: seq<Descr>, n: seq<Descr>, n': seq<Descr>, W: World, done: set<int>, t: int)
    requires Relocated(m, n0, n, W, done) && Followed(m, W, t) && t !in done
    requires OneBlock(m, n, n', W, t, 0, Traced(m[t]))
    ensures Relocated(m, n0, n', W, done + {t})
  {
    hide Renamed;
    forall x | 0 <= x < |m|
      ensures n'[x] == if SlotIn(m, done + {t}, x) then Renamed(m, W, n0[x]) else n0[x]
    {
      if t < x <= t + Traced(m[t]) {
        SlotTop(m, W, t, x);
      }
    }
  }

  /** A block that is still to be done reads as at first. */
  lemma RelocatedLook(m: seq<Descr>, n0: seq<Descr>, n: seq<Descr>, W: World, done: set<int>, t: int)
    requires Relocated(m, n0, n, W, done) && Followed(m, W, t) && t !in done
    ensures forall x :: t < x <= t + Traced(m[t]) ==> 0 <= x < |m| == |n| && n[x] == n0[x]
  {
    hide Renamed;
    forall x | t < x <= t + Traced(m[t])
      ensures 0 <= x < |m| && n[x] == n0[x]
    {
      SlotTop(m, W, t, x);
    }
  }

  lemma FollowedParts(m: seq<Descr>, n: seq<Descr>, W: World, t: int)
    requires Heads(m, n, W) && Followed(m, W, t)
    ensures |n| == |m| && 0 < t && t + Traced(m[t]) < |m|
  {
  }

  lemma FollowedSlot(m: seq<Descr>, W: World, t: int, i: int)
    requires Followed(m, W, t) && 0 < i <= Traced(m[t])
    ensures 0 < t + i < |m| && TargetOk(m, W, m[t + i])
  {
    assert SlotOf(m, t, t + i);
  }

  // --------------------------------------------------------- the dynamic region

  /** The marked blocks among the first i. */
  ghost function MarkedTo(m: seq<Descr>, W: World, i: int): (s: set<int>)
    requires 0 <= i <= |W.dyn|
  {
    set j | 0 <= j < i && Stays(m, W, j) :: W.dyn[j]
  }

  /** All that lives is in order before relocation: n is the memory when it
      begins, m the marked memory. */
  ghost predicate Relocatable(m: seq<Descr>, n: seq<Descr>, W: World, P: set<int>) {
    && Tiled(m, W) && Heads(m, n, W) && P !! MarkedTo(m, W, |W.dyn|)
    && (forall i :: 0 <= i < |W.dyn| && Stays(m, W, i) ==> Followed(m, W, W.dyn[i]))
    && (forall p :: p in P ==> Followed(m, W, p))
    && (forall x :: 0 <= x < |m| && SlotIn(m, MarkedTo(m, W, |W.dyn|) + P, x) ==> n[x] == m[x])
  }

  lemma MarkedIn(m: seq<Descr>, W: World, i: int, n: int)
    requires 0 <= i < n <= |W.dyn| && Stays(m, W, i)
    ensures W.dyn[i] in MarkedTo(m, W, n)
  {
  }

  lemma MarkedAlive(m: seq<Descr>, W: World, n: int, t: int)
    requires 0 <= n <= |W.dyn| && t in MarkedTo(m, W, n)
    ensures exists i :: 0 <= i < n && W.dyn[i] == t && Stays(m, W, i)
  {
  }

  lemma NullsHere(m: seq<Descr>, t: int, j: int, mv: int)
    requires 0 < t < |m| && NullsBelow(m, {t}, mv) && 0 < j <= Traced(m[t]) && t + j < |m|
    ensures mv > 0 || !(m[t + j].ptr && m[t + j].a == 0)
  {
    if mv <= 0 {
      assert t in {t} && NoNulls(m, t) && SlotOf(m, t, t + j);
    }
  }

  lemma NullsOne(m: seq<Descr>, S: set<int>, t: int, mv: int)
    requires NullsBelow(m, S, mv) && t in S
    ensures NullsBelow(m, {t}, mv)
  {
    hide NoNulls;
  }

  lemma NullsParts(m: seq<Descr>, S: set<int>, S': set<int>, mv: int)
    requires NullsBelow(m, S + S', mv)
    ensures NullsBelow(m, S, mv) && NullsBelow(m, S', mv)
  {
    hide NoNulls;
  }

  lemma MarkedNext(m: seq<Descr>, W: World, i: int)
    requires Tiled(m, W) && 0 <= i < |W.dyn|
    ensures MarkedTo(m, W, i + 1) == MarkedTo(m, W, i) + if Stays(m, W, i) then {W.dyn[i]} else {}
    ensures W.dyn[i] !in MarkedTo(m, W, i)
  {
    forall j | 0 <= j < i && W.dyn[j] == W.dyn[i]
      ensures false
    {
      TitlesDiffer(m, W, i, j);
    }
  }

  /** Block i of the dynamic region as relocation finds it. */
  lemma DynamicLook(m: seq<Descr>, n0: seq<Descr>, n: seq<Descr>, W: World, P: set<int>, i: int)
    requires Relocatable(m, n0, W, P) && 0 <= i < |W.dyn|
    requires Heads(m, n, W) && Relocated(m, n0, n, W, MarkedTo(m, W, i))
    ensures var t := W.dyn[i];
            && 0 < t < |n| == |m| && n[t] == m[t].(a := n[t].a) && (Stays(m, W, i) <==> m[t].mark)
            && Traced(m[t]) > 0 && (!m[t].sttl ==> BkSize(m[t]) == Traced(m[t]) + 1)
            && (m[t].mark ==> Followed(m, W, t)
                              && forall x :: t < x <= t + Traced(m[t]) && 0 <= x < |m| ==> n[x] == m[x])
  {
    hide NewHome;
    var t := W.dyn[i];
    assert BlockAt(m, W, i);
    assert HeadAt(m, n, W, t);
    MarkedNext(m, W, i);
    if Stays(m, W, i) {
      RelocatedLook(m, n0, n, W, MarkedTo(m, W, i), t);
      forall x | t < x <= t + Traced(m[t]) && 0 <= x < |m|
        ensures n[x] == m[x]
      {
        SlotTop(m, W, t, x);
        assert SlotIn(m, MarkedTo(m, W, |W.dyn|) + P, x);
      }
    }
  }

  lemma MarkedNone(m: seq<Descr>, W: World)
    ensures MarkedTo(m, W, 0) == {}
  {
  }

  lemma RelocatableParts(m: seq<Descr>, n: seq<Descr>, W: World, P: set<int>)
    requires Relocatable(m, n, W, P)
    ensures |n| == |m| && Tiled(m, W) && Heads(m, n, W)
  {
  }

  // ----------------------------------------------------------- the listed blocks

  /** The entry names a block that has not been relocated yet. */
  lemma ListedLook(m: seq<Descr>, n0: seq<Descr>, n: seq<Descr>, W: World, P: set<int>, done: set<int>, p: int)
    requires Relocatable(m, n0, W, P) && p in P && p !in done
    requires Heads(m, n, W) && Relocated(m, n0, n, W, MarkedTo(m, W, |W.dyn|) + done)
    ensures Followed(m, W, p) && 0 < p < |n| == |m| && n[p] == m[p].(a := n[p].a)
    ensures p !in MarkedTo(m, W, |W.dyn|) + done
    ensures forall x :: p < x <= p + Traced(m[p]) && 0 <= x < |m| ==> n[x] == m[x]
  {
    hide NewHome;
    var all := MarkedTo(m, W, |W.dyn|);
    assert HeadAt(m, n, W, p);
    RelocatedLook(m, n0, n, W, all + done, p);
    forall x | p < x <= p + Traced(m[p]) && 0 <= x < |m|
      ensures n[x] == m[x]
    {
      SlotTop(m, W, p, x);
      assert SlotIn(m, all + P, x);
    }
  }

  /** The table names no block twice and is not itself in a listed block, nor
      does anything but marking touch it. */
  ghost predicate ListedOnce(m: seq<Descr>, n: seq<Descr>, W: World, P: set<int>, ptr: int, size: int) {
    && 0 <= ptr && ptr + size < |m| == |n| && ptr + size < W.lo
    && (forall x, y :: ptr < x < y <= ptr + size && m[x].a == m[y].a ==> m[x].a == 0)
    && (forall x :: ptr < x <= ptr + size ==> n[x].a == m[x].a && !SlotIn(m, P, x))
    && (forall p :: p in P && 0 < p < |m| ==> Traced(m[p]) > 0 && !m[p].sttl)
  }

  lemma {:induction false} ListedEntry(m: seq<Descr>, ptr: int, k: int, size: int, p: int)
    requires 0 <= ptr && 0 <= k <= size && ptr + size < |m| && p in Listed(m, ptr, k, size) && p != 0
    ensures exists x :: ptr + k < x <= ptr + size && m[x].a == p
    decreases size - k
  {
    if k < size && p != m[ptr + k + 1].a {
      ListedEntry(m, ptr, k + 1, size, p);
    } else if k < size {
      assert m[ptr + k + 1].a == p;
    }
  }

  lemma {:induction false} ListedIn(m: seq<Descr>, ptr: int, k: int, i: int, size: int)
    requires 0 <= ptr && 0 <= k < i <= size && ptr + size < |m| && m[ptr + i].a != 0
    ensures m[ptr + i].a in Listed(m, ptr, k, size)
    decreases i - k
  {
    if i > k + 1 {
      ListedIn(m, ptr, k + 1, i, size);
    }
  }

  lemma EntryLook(m: seq<Descr>, n0: seq<Descr>, n: seq<Descr>, W: World, P: set<int>, ptr: int, i: int, size: int)
    requires ListedOnce(m, n0, W, P, ptr, size) && 0 < i <= size && P == Listed(m, ptr, 0, size) && Tiled(m, W)
    requires Relocated(m, n0, n, W, MarkedTo(m, W, |W.dyn|) + Listed(m, ptr, i, size))
    ensures 0 <= ptr + i < |n| && n[ptr + i].a == m[ptr + i].a
    ensures var p := m[ptr + i].a;
            && Listed(m, ptr, i - 1, size) == Listed(m, ptr, i, size) + (if p != 0 then {p} else {})
            && (p != 0 ==> p in P && p !in Listed(m, ptr, i, size)
                           && (0 < p < |m| ==> m[p].v == Traced(m[p]) && Traced(m[p]) > 0))
  {
    var all, done := MarkedTo(m, W, |W.dyn|), Listed(m, ptr, i, size);
    ListedFrom(m, ptr, i, size);
    assert !SlotIn(m, P, ptr + i);
    forall t | t in all
      ensures t >= W.lo
    {
      DynTitle(m, W, t);
    }
    assert !SlotIn(m, all + done, ptr + i);
    var p := m[ptr + i].a;
    if p != 0 {
      ListedIn(m, ptr, 0, i, size);
      if p in done {
        ListedEntry(m, ptr, i, size, p);
      }
    }
  }

  lemma HeadsParts(m: seq<Descr>, n: seq<Descr>, W: World)
    requires Heads(m, n, W)
    ensures |n| == |m|
  {
  }
}
