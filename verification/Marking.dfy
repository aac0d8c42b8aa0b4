/** Reachability between blocks, and what keeps the marking loop on course. */
module Marking {
  import opened Heap

  /** The block that a descriptor points into, or 0. */
  function Target(m: seq<Descr>, d: Descr): int {
    if d.ptr && 0 < d.a < |m| then TopOf(m, d.a) else 0
  }

  /** Descriptor j belongs to block t and is followed. */
  predicate SlotOf(m: seq<Descr>, t: int, j: int) {
    0 < t < |m| && t < j <= t + Traced(m[t]) && j < |m|
  }

  /** Block t points into the dynamic block u. */
  ghost predicate Edge(m: seq<Descr>, W: World, t: int, u: int) {
    u in W.dyn && exists j :: SlotOf(m, t, j) && Target(m, m[j]) == u
  }

  ghost predicate IsPath(m: seq<Descr>, W: World, p: seq<int>) {
    |p| >= 2 && forall i, j :: 0 <= i && j == i + 1 && j < |p| ==> Edge(m, W, p[i], p[j])
  }

  /** The dynamic block t can be reached from block s by following pointers. */
  ghost predicate Reach(m: seq<Descr>, W: World, s: int, t: int) {
    exists p :: IsPath(m, W, p) && p[0] == s && p[|p| - 1] == t
  }

  lemma ReachEdge(m: seq<Descr>, W: World, s: int, t: int)
    requires Edge(m, W, s, t)
    ensures Reach(m, W, s, t)
  {
    var p := [s, t];
    assert IsPath(m, W, p) && p[|p| - 1] == t;
  }

  lemma ReachFurther(m: seq<Descr>, W: World, s: int, t: int, u: int)
    requires Reach(m, W, s, t) && Edge(m, W, t, u)
    ensures Reach(m, W, s, u)
  {
    var p :| IsPath(m, W, p) && p[0] == s && p[|p| - 1] == t;
    var q := p + [u];
    forall i, j | 0 <= i && j == i + 1 && j < |q|
      ensures Edge(m, W, q[i], q[j])
    {
      if j < |p| {
        assert Edge(m, W, p[i], p[j]);
      }
    }
    assert q[|q| - 1] == u;
  }

  /** m' is m with some more dynamic blocks marked. */
  ghost predicate Marked(m: seq<Descr>, m': seq<Descr>, W: World) {
    && |m'| == |m|
    && forall i :: 0 <= i < |m| ==> m'[i] == m[i] || (i in W.dyn && m'[i] == m[i].(mark := true))
  }

  lemma MarkedTop(m: seq<Descr>, m': seq<Descr>, W: World, a: int)
    requires Marked(m, m', W) && 0 <= a < |m|
    ensures TopOf(m', a) == TopOf(m, a)
  {
    TopSame(m, m', a);
  }

  /** What descriptor d points into, if anything, is marked in m'. */
  ghost predicate Good(m: seq<Descr>, m': seq<Descr>, d: Descr) {
    var t := Target(m, d);
    0 < t < |m'| ==> m'[t].mark
  }

  /** Everything that block t points into is marked in m'. */
  ghost predicate Closed(m: seq<Descr>, m': seq<Descr>, t: int) {
    forall j :: SlotOf(m, t, j) ==> Good(m, m', m[j])
  }

  ghost predicate AllClosed(m: seq<Descr>, m': seq<Descr>, W: World) {
    forall t :: t in W.dyn && 0 < t < |m'| && m'[t].mark ==> Closed(m, m', t)
  }

  /** If marked blocks only lead to marked blocks, whatever can be reached is
      marked. */
  lemma {:induction false} ReachMarked(m: seq<Descr>, m': seq<Descr>, W: World, s: int, p: seq<int>)
    requires Marked(m, m', W) && AllClosed(m, m', W) && Closed(m, m', s)
    requires IsPath(m, W, p) && p[0] == s
    ensures 0 < p[|p| - 1] < |m'| ==> m'[p[|p| - 1]].mark
    decreases |p|
  {
    var last := |p| - 1;
    assert Edge(m, W, p[last - 1], p[last]);
    var j :| SlotOf(m, p[last - 1], j) && Target(m, m[j]) == p[last];
    if |p| == 2 {
      assert Good(m, m', m[j]);
    } else {
      var q := p[..last];
      assert forall i, j :: 0 <= i && j == i + 1 && j < |q| ==> q[i] == p[i] && q[j] == p[j];
      ReachMarked(m, m', W, s, q);
      assert Edge(m, W, p[last - 2], p[last - 1]);
      assert Closed(m, m', p[last - 1]);
      assert Good(m, m', m[j]);
    }
  }

  // --------------------------------------------------------- the marking loop

  /** A block whose descriptors 1 to v are still to be looked at. */
  datatype Todo = Todo(a: int, v: int)

  ghost predicate Pending(work: seq<Todo>, t: int, i: int) {
    exists k :: 0 <= k < |work| && work[k].a == t && i <= work[k].v
  }

  ghost predicate SlotDone(m: seq<Descr>, m': seq<Descr>, work: seq<Todo>, t: int, j: int)
    requires 0 <= j < |m|
  {
    Good(m, m', m[j]) || Pending(work, t, j - t)
  }

  ghost predicate Visited(m': seq<Descr>, W: World, s: int, t: int) {
    t == s || (t in W.dyn && 0 < t < |m'| && m'[t].mark)
  }

  /** Every followed descriptor of every visited block leads to a marked block
      or is still to be looked at. */
  ghost predicate OnCourse(m: seq<Descr>, m': seq<Descr>, W: World, s: int, work: seq<Todo>) {
    forall t, j :: Visited(m', W, s, t) && SlotOf(m, t, j) ==> SlotDone(m, m', work, t, j)
  }

  /** Everything newly marked since m1 was reached from s. */
  ghost predicate Justified(m: seq<Descr>, m1: seq<Descr>, m': seq<Descr>, W: World, s: int, work: seq<Todo>) {
    && (forall t :: t in W.dyn && 0 < t < |m1| == |m'| && m'[t].mark ==> m1[t].mark || Reach(m, W, s, t))
    && forall k :: 0 <= k < |work| ==> FromHere(m, W, s, work[k])
  }

  ghost predicate FromHere(m: seq<Descr>, W: World, s: int, todo: Todo) {
    && (todo.a == s || (todo.a in W.dyn && Reach(m, W, s, todo.a)))
    && 0 < todo.a < |m| && 0 < todo.v <= Traced(m[todo.a]) && todo.a + todo.v < |m|
  }

  /** The topmost descriptor leads nowhere new: it is done. */
  lemma NextSlot(m: seq<Descr>, m': seq<Descr>, W: World, s: int, below: seq<Todo>, cur: int, idx: int, rest: seq<Todo>)
    requires OnCourse(m, m', W, s, below + [Todo(cur, idx)])
    requires 0 <= cur + idx < |m| && Good(m, m', m[cur + idx])
    requires rest == if idx > 1 then [Todo(cur, idx - 1)] else []
    ensures OnCourse(m, m', W, s, below + rest)
  {
    var work, next := below + [Todo(cur, idx)], below + rest;
    forall t, j | Visited(m', W, s, t) && SlotOf(m, t, j)
      ensures SlotDone(m, m', next, t, j)
    {
      assert SlotDone(m, m', work, t, j);
      if !Good(m, m', m[j]) {
        var k :| 0 <= k < |work| && work[k].a == t && j - t <= work[k].v;
        if k < |below| {
          assert next[k] == work[k];
        } else {
          assert j - t < idx;
          assert next[|below|] == Todo(cur, idx - 1);
        }
      }
    }
  }

  /** The topmost descriptor leads to a block that was not marked: it is marked
      now, and its descriptors are to be looked at first. */
  lemma NewBlock(m: seq<Descr>, m': seq<Descr>, m'': seq<Descr>, W: World, s: int, below: seq<Todo>, cur: int, idx: int,
                 rest: seq<Todo>, u: int)
    requires OnCourse(m, m', W, s, below + [Todo(cur, idx)]) && Marked(m, m', W)
    requires 0 <= cur + idx < |m| && Target(m, m[cur + idx]) == u
    requires rest == if idx > 1 then [Todo(cur, idx - 1)] else []
    requires 0 < u < |m| && u in W.dyn && m'' == m'[u := m'[u].(mark := true)]
    ensures OnCourse(m, m'', W, s, below + rest + [Todo(u, Traced(m[u]))])
  {
    var work, next := below + [Todo(cur, idx)], below + rest + [Todo(u, Traced(m[u]))];
    forall t, j | Visited(m'', W, s, t) && SlotOf(m, t, j)
      ensures SlotDone(m, m'', next, t, j)
    {
      if t == u {
        assert next[|next| - 1] == Todo(u, Traced(m[u]));
      } else {
        assert Visited(m', W, s, t);
        assert SlotDone(m, m', work, t, j);
        if Good(m, m', m[j]) {
          assert Good(m, m'', m[j]);
        } else {
          var k :| 0 <= k < |work| && work[k].a == t && j - t <= work[k].v;
          if k < |below| {
            assert next[k] == work[k];
          } else if j - t == idx {
            assert Good(m, m'', m[j]);
          } else {
            assert next[|below|] == Todo(cur, idx - 1);
          }
        }
      }
    }
  }

  /** Marking may start at the permanent block s. */
  ghost predicate Ready(m: seq<Descr>, W: World, s: int) {
    && Tiled(m, W) && Permanent(m, W) && s in W.perm
    && BlockOk(m, W, s) && forall t :: t in W.dyn ==> BlockOk(m, W, t)
  }

  /** Looking at a pending descriptor: it lies in its block, and what it points
      to is marked or is a dynamic block. */
  lemma LookAt(m: seq<Descr>, m': seq<Descr>, W: World, s: int, todo: Todo)
    requires Ready(m, W, s) && Marked(m, m', W) && FromHere(m, W, s, todo)
    ensures var j := todo.a + todo.v;
            && 0 <= j < |m'| && m'[j].ptr == m[j].ptr && m'[j].a == m[j].a && SlotOf(m, todo.a, j)
            && if m[j].ptr && m[j].a != 0 then
                 var t := Target(m, m[j]);
                 && 0 <= m[j].a < |m'| && TopOf(m', m[j].a) == t && 0 < t < |m'|
                 && (m'[t].mark ==> Good(m, m', m[j]))
                 && (!m'[t].mark ==> t in W.dyn && TitleAt(m, t) && m'[t].sttl == m[t].sttl && m'[t].v == m[t].v)
               else Good(m, m', m[j])
  {
    var j := todo.a + todo.v;
    assert BlockOk(m, W, todo.a);
    assert PtrOk(m, W, m[j]);
    if m[j].ptr && m[j].a != 0 {
      MarkedTop(m, m', W, m[j].a);
      var t := TopOf(m, m[j].a);
      if t in W.dyn {
        var i :| 0 <= i < |W.dyn| && W.dyn[i] == t;
        assert BlockAt(m, W, i);
      }
    }
  }

  lemma StartUp(m: seq<Descr>, m': seq<Descr>, W: World, s: int)
    requires Ready(m, W, s) && Marked(m, m', W) && AllClosed(m, m', W)
    ensures 0 < s < |m'| && m'[s].v == m[s].v
    ensures OnCourse(m, m', W, s, [Todo(s, m[s].v)]) && Justified(m, m', m', W, s, [Todo(s, m[s].v)])
  {
    var work := [Todo(s, m[s].v)];
    forall t, j | Visited(m', W, s, t) && SlotOf(m, t, j)
      ensures SlotDone(m, m', work, t, j)
    {
      if t == s {
        assert work[0].a == t;
      } else {
        assert Closed(m, m', t);
      }
    }
  }

  lemma JustNext(m: seq<Descr>, m1: seq<Descr>, m': seq<Descr>, W: World, s: int, below: seq<Todo>, cur: int, idx: int, rest: seq<Todo>)
    requires Justified(m, m1, m', W, s, below + [Todo(cur, idx)])
    requires rest == if idx > 1 then [Todo(cur, idx - 1)] else []
    ensures Justified(m, m1, m', W, s, below + rest)
  {
    var work, next := below + [Todo(cur, idx)], below + rest;
    forall k | 0 <= k < |next|
      ensures FromHere(m, W, s, next[k])
    {
      assert FromHere(m, W, s, work[k]);
      assert k < |below| ==> next[k] == work[k];
    }
  }

  lemma JustNew(m: seq<Descr>, m1: seq<Descr>, m': seq<Descr>, m'': seq<Descr>, W: World, s: int, below: seq<Todo>,
                cur: int, idx: int, rest: seq<Todo>, u: int)
    requires Ready(m, W, s) && Justified(m, m1, m', W, s, below + [Todo(cur, idx)])
    requires rest == if idx > 1 then [Todo(cur, idx - 1)] else []
    requires SlotOf(m, cur, cur + idx) && Target(m, m[cur + idx]) == u && TitleAt(m, u)
    requires u in W.dyn && |m'| == |m| == |m1| && m'' == m'[u := m'[u].(mark := true)]
    ensures Justified(m, m1, m'', W, s, below + rest + [Todo(u, Traced(m[u]))])
  {
    var work := below + [Todo(cur, idx)];
    assert FromHere(m, W, s, work[|below|]);
    assert Edge(m, W, cur, u);
    if cur == s {
      ReachEdge(m, W, s, u);
    } else {
      ReachFurther(m, W, s, cur, u);
    }
    JustNext(m, m1, m', W, s, below, cur, idx, rest);
    assert BlockOk(m, W, u);
    var next := below + rest + [Todo(u, Traced(m[u]))];
    forall k | 0 <= k < |next|
      ensures FromHere(m, W, s, next[k])
    {
      assert k < |below + rest| ==> next[k] == (below + rest)[k];
    }
  }

  lemma MarkedSelf(m: seq<Descr>, W: World)
    ensures Marked(m, m, W)
  {
  }

  ghost function Unmarked(m: seq<Descr>, W: World): set<int> {
    set t | t in W.dyn && 0 < t < |m| && !m[t].mark
  }

  lemma MarkedOne(m: seq<Descr>, m1: seq<Descr>, m': seq<Descr>, m'': seq<Descr>, W: World, u: int)
    requires Marked(m, m', W) && Marked(m1, m', W) && u in W.dyn && 0 < u < |m| && !m'[u].mark
    requires m'' == m'[u := m'[u].(mark := true)]
    ensures Marked(m, m'', W) && Marked(m1, m'', W)
    ensures Unmarked(m'', W) == Unmarked(m', W) - {u} && u in Unmarked(m', W)
  {
  }

  lemma TopTodo(m: seq<Descr>, m1: seq<Descr>, m': seq<Descr>, W: World, s: int, below: seq<Todo>, todo: Todo)
    requires Justified(m, m1, m', W, s, below + [todo])
    ensures FromHere(m, W, s, todo) && 0 < todo.v
    ensures forall k :: 0 <= k < |below| ==> below[k].a > 0 && below[k].v > 0
  {
    var work := below + [todo];
    assert FromHere(m, W, s, work[|below|]);
    forall k | 0 <= k < |below|
      ensures below[k].a > 0 && below[k].v > 0
    {
      assert FromHere(m, W, s, work[k]);
    }
  }

  lemma Finished(m: seq<Descr>, m1: seq<Descr>, m': seq<Descr>, W: World, s: int, work: seq<Todo>)
    requires OnCourse(m, m', W, s, work) && Justified(m, m1, m', W, s, work) && work == []
    ensures AllClosed(m, m', W) && Closed(m, m', s)
    ensures forall t :: t in W.dyn && 0 < t < |m1| == |m'| && m'[t].mark ==> m1[t].mark || Reach(m, W, s, t)
  {
    forall t, j | Visited(m', W, s, t) && SlotOf(m, t, j)
      ensures Good(m, m', m[j])
    {
      assert SlotDone(m, m', work, t, j);
    }
  }

  // ------------------------------------------------------------- all together

  /** The marking loop with work left to do: m is the memory before anything
      was marked, m1 the one when this loop began, m' the present one. */
  ghost predicate Course(m: seq<Descr>, m1: seq<Descr>, m': seq<Descr>, W: World, s: int, work: seq<Todo>) {
    && |m| == |m1| == |m'|
    && Ready(m, W, s) && Marked(m, m', W) && Marked(m1, m', W)
    && OnCourse(m, m', W, s, work) && Justified(m, m1, m', W, s, work)
  }

  lemma CourseStart(m: seq<Descr>, m': seq<Descr>, W: World, s: int)
    requires Ready(m, W, s) && Marked(m, m', W) && AllClosed(m, m', W)
    ensures 0 < s < |m'| == |m| && Course(m, m', m', W, s, [Todo(s, m'[s].v)])
  {
    StartUp(m, m', W, s);
    MarkedSelf(m', W);
  }

  lemma CourseLook(m: seq<Descr>, m1: seq<Descr>, m': seq<Descr>, W: World, s: int, below: seq<Todo>, cur: int, idx: int)
    requires Course(m, m1, m', W, s, below + [Todo(cur, idx)])
    ensures 0 <= cur + idx < |m'| == |m|
    ensures m'[cur + idx].ptr == m[cur + idx].ptr && m'[cur + idx].a == m[cur + idx].a && 0 < idx
    ensures if m'[cur + idx].ptr && m'[cur + idx].a != 0 then
              && 0 <= m'[cur + idx].a < |m'|
              && var t := TopOf(m', m'[cur + idx].a);
                 && 0 < t < |m'| && t == Target(m, m[cur + idx])
                 && (m'[t].mark ==> Good(m, m', m[cur + idx])) && (!m'[t].mark ==> t in W.dyn)
            else Good(m, m', m[cur + idx])
  {
    hide OnCourse, Ready, Marked, Good;
    TopTodo(m, m1, m', W, s, below, Todo(cur, idx));
    LookAt(m, m', W, s, Todo(cur, idx));
  }

  lemma CourseNext(m: seq<Descr>, m1: seq<Descr>, m': seq<Descr>, W: World, s: int, below: seq<Todo>, cur: int, idx: int, rest: seq<Todo>)
    requires Course(m, m1, m', W, s, below + [Todo(cur, idx)])
    requires 0 <= cur + idx < |m| && Good(m, m', m[cur + idx])
    requires rest == if idx > 1 then [Todo(cur, idx - 1)] else []
    ensures Course(m, m1, m', W, s, below + rest)
    ensures forall k :: 0 <= k < |below| ==> below[k].a > 0 && below[k].v > 0
  {
    hide OnCourse, Ready, Marked, Good, Justified;
    TopTodo(m, m1, m', W, s, below, Todo(cur, idx));
    NextSlot(m, m', W, s, below, cur, idx, rest);
    JustNext(m, m1, m', W, s, below, cur, idx, rest);
  }

  lemma CourseNew(m: seq<Descr>, m1: seq<Descr>, m': seq<Descr>, m'': seq<Descr>, W: World, s: int, below: seq<Todo>,
                  cur: int, idx: int, rest: seq<Todo>, u: int)
    requires Course(m, m1, m', W, s, below + [Todo(cur, idx)])
    requires rest == if idx > 1 then [Todo(cur, idx - 1)] else []
    requires 0 <= cur + idx < |m| && Target(m, m[cur + idx]) == u && u in W.dyn && 0 < u < |m'| && !m'[u].mark
    requires m'' == m'[u := m'[u].(mark := true)]
    ensures Course(m, m1, m'', W, s, below + rest + [Todo(u, Traced(m'[u]))])
    ensures Unmarked(m'', W) < Unmarked(m', W)
  {
    hide OnCourse, Good, Justified;
    TopTodo(m, m1, m', W, s, below, Todo(cur, idx));
    LookAt(m, m', W, s, Todo(cur, idx));
    MarkedOne(m, m1, m', m'', W, u);
    hide Ready, Marked;
    NewBlock(m, m', m'', W, s, below, cur, idx, rest, u);
    JustNew(m, m1, m', m'', W, s, below, cur, idx, rest, u);
  }

  lemma CourseEnd(m: seq<Descr>, m1: seq<Descr>, m': seq<Descr>, W: World, s: int)
    requires Course(m, m1, m', W, s, [])
    ensures |m| == |m1| == |m'| && Marked(m, m', W) && Marked(m1, m', W)
    ensures AllClosed(m, m', W) && Closed(m, m', s)
    ensures forall t :: t in W.dyn && 0 < t < |m'| && m'[t].mark ==> m1[t].mark || Reach(m, W, s, t)
  {
    Finished(m, m1, m', W, s, []);
  }
}
