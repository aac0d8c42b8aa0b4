/** The garbage collector: mark, forward, relink the hash chains, relocate,
    slide. */
module Collector {
  import opened Heap
  import opened Marking
  import opened Roots
  import opened Forwarding
  import opened Relinking
  import opened Relocation
  import opened Sliding
  import opened Soundness
  import opened Survival
  import opened Growth
  import opened Interning
  import opened Insertion
  import opened Lookup
  import opened Splitting
  import opened Startup

  datatype Outcome = Got(a: int) | SizeError | NoStorage

  class Storage {
    const mem: array<Descr>
    var stack: seq<Todo>         // the part of the system stack that marking uses
    const prmptr: int            // the table of permanent blocks to mark from
    const prmdx: int             // and its size
    const oblist: int            // the first hash bin, less LNKFLD
    const obsiz: int             // how many bins there are
    const gcblk: int             // the collector's pseudo-block
    const hdsgpt: int            // where the dynamic region begins
    var frsgpt: int              // where it is free from
    const tlsgp1: int            // and where it ends
    const sizlmt: int            // no block may be this large
    var mvsgpt: int              // blocks below this one do not move
    const h: Hash                // the hash function
    const regs: Registers        // the registers of the search for a string
    ghost var W: World

    /** Storage with contents m, of which the dynamic region is to be used up to
        the given end. */
    constructor (m: seq<Descr>, T: Tables, h: Hash, regs: Registers, end: int, sizlmt: int, start: int, free: int,
                 ghost W: World, ghost chains: seq<seq<int>>)
      requires TableOk(m, W, T, h, chains, regs) && W.lo == start && W.hi == free <= end <= |m|
      ensures Tabled(chains) && mem[..] == m && fresh(mem) && Tab() == T && this.W == W && this.h == h && this.regs == regs
      ensures stack == [] && mvsgpt == 0 && tlsgp1 == end && this.sizlmt == sizlmt
    {
      mem := new Descr[|m|](i requires 0 <= i < |m| => m[i]);
      stack, mvsgpt, hdsgpt, frsgpt, tlsgp1 := [], 0, start, free, end;
      prmptr, prmdx, oblist, obsiz, gcblk := T.prmptr, T.prmdx, T.oblist, T.obsiz, T.gcblk;
      this.h, this.regs, this.sizlmt, this.W := h, regs, sizlmt, W;
      new;
      assert mem[..] == m;
    }

    /** top: the title below address a, and how far a lies behind it. */
    method Top(a: int) returns (title: int, offset: int)
      requires 0 <= a < mem.Length && TopOf(mem[..], a) >= 0
      ensures title == TopOf(mem[..], a) && offset == a - title
    {
      title := a;
      while !mem[title].ttl
        invariant 0 <= title <= a && TopOf(mem[..], title) == TopOf(mem[..], a)
        decreases title
      {
        title := title - 1;
      }
      offset := a - title;
    }

    /** GCM: mark what the permanent block s leads to.  m is the memory before
        anything was marked. */
    method Gcm(s: int, ghost m: seq<Descr>)
      requires Marked(m, mem[..], W) && AllClosed(m, mem[..], W) && Ready(m, W, s)
      modifies mem, this`stack
      ensures Marked(old(mem[..]), mem[..], W) && Marked(m, mem[..], W)
      ensures AllClosed(m, mem[..], W) && Closed(m, mem[..], s)
      ensures forall t :: t in W.dyn && 0 < t < mem.Length && mem[t].mark ==> old(mem[t].mark) || Reach(m, W, s, t)
      ensures stack == old(stack)
    {
      hide *;
      ghost var m1, head := mem[..], stack + [Todo(0, 0)];
      CourseStart(m, mem[..], W, s);
      stack := stack + [Todo(0, 0)];
      var cur, idx := s, mem[s].v;
      ghost var below: seq<Todo> := [];
      assert below + [Todo(cur, idx)] == [Todo(s, mem[s].v)];
      while true
        invariant stack == head + below
        invariant Course(m, m1, mem[..], W, s, below + [Todo(cur, idx)])
        decreases Unmarked(mem[..], W), |below|, idx
      {
        ghost var m2 := mem[..];
        CourseLook(m, m1, m2, W, s, below, cur, idx);
        var d := mem[cur + idx];
        if d.ptr && d.a != 0 {
          var topcl, offset := Top(d.a);
          if !mem[topcl].mark {
            cur, idx, below := Descend(cur, idx, topcl, m, m1, s, head, below);
            continue;
          }
        }
        CourseNext(m, m1, m2, W, s, below, cur, idx, if idx > 1 then [Todo(cur, idx - 1)] else []);
        idx := idx - 1;
        if idx == 0 {
          var bk1cl := stack[|stack| - 1];
          stack := stack[..|stack| - 1];
          if bk1cl.a == 0 {
            assert below == [];
            CourseEnd(m, m1, m2, W, s);
            return;
          }
          cur, idx := bk1cl.a, bk1cl.v;
          assert below + [] == below[..|below| - 1] + [Todo(cur, idx)];
          below := below[..|below| - 1];
        }
      }
    }

    /** An unmarked block is entered; its father is remembered unless its last
        descriptor has just been followed. */
    method Descend(cur: int, idx: int, topcl: int, ghost m: seq<Descr>, ghost m1: seq<Descr>, ghost s: int,
                   ghost head: seq<Todo>, ghost below: seq<Todo>)
        returns (cur': int, idx': int, ghost below': seq<Todo>)
      requires Course(m, m1, mem[..], W, s, below + [Todo(cur, idx)]) && stack == head + below
      requires 0 <= cur + idx < |m| && Target(m, m[cur + idx]) == topcl && 0 < idx
      requires 0 < topcl < mem.Length && !mem[topcl].mark && topcl in W.dyn
      modifies mem, this`stack
      ensures stack == head + below' && Course(m, m1, mem[..], W, s, below' + [Todo(cur', idx')])
      ensures Unmarked(mem[..], W) < old(Unmarked(mem[..], W))
    {
      hide Course, Unmarked, Target;
      ghost var m2, rest := mem[..], if idx > 1 then [Todo(cur, idx - 1)] else [];
      var bkdx := idx - 1;
      if bkdx != 0 {
        stack := stack + [Todo(cur, bkdx)];
      }
      cur' := topcl;
      mem[cur'] := mem[cur'].(mark := true);
      idx' := if mem[cur'].sttl then 2 else mem[cur'].v;
      below' := below + rest;
      assert mem[..] == m2[topcl := m2[topcl].(mark := true)];
      CourseNew(m, m1, m2, mem[..], W, s, below, cur, idx, rest, topcl);
    }

    /** Marking from every listed permanent block. */
    method MarkListed(ghost m: seq<Descr>)
      requires 0 < prmptr && 0 < prmdx && prmptr + prmdx < W.lo <= |m|
      requires mem[..] == m && BaseOk(m, W, Listed(m, prmptr, 0, prmdx), gcblk)
      requires forall t :: t in W.dyn && 0 < t < |m| ==> !m[t].mark
      modifies mem, this`stack
      ensures MarkedFrom(m, mem[..], W, Listed(m, prmptr, 0, prmdx), {}) && stack == old(stack)
    {
      hide *;
      MarkedFromNothing(m, W);
      ListedNone(m, prmptr, prmdx);
      ghost var P := Listed(m, prmptr, 0, prmdx);
      var bkdxu := prmdx;
      while bkdxu != 0
        invariant 0 <= bkdxu <= prmdx && |m| == mem.Length
        invariant MarkedFrom(m, mem[..], W, Listed(m, prmptr, bkdxu, prmdx), {}) && stack == old(stack)
      {
        bkdxu := MarkEntry(bkdxu, m, P);
      }
    }

    method MarkEntry(bkdxu: int, ghost m: seq<Descr>, ghost P: set<int>) returns (next: int)
      requires 0 < prmptr && 0 < bkdxu <= prmdx && prmptr + prmdx < W.lo <= |m| == mem.Length
      requires P == Listed(m, prmptr, 0, prmdx) && BaseOk(m, W, P, gcblk)
      requires MarkedFrom(m, mem[..], W, Listed(m, prmptr, bkdxu, prmdx), {})
      modifies mem, this`stack
      ensures next == bkdxu - 1 && stack == old(stack)
      ensures MarkedFrom(m, mem[..], W, Listed(m, prmptr, bkdxu - 1, prmdx), {})
    {
      hide MarkedFrom, Ready, Marked, AllClosed, Closed, Reach;
      ghost var m1, Q := mem[..], Listed(m, prmptr, bkdxu, prmdx);
      EntryKept(m, m1, W, P, Q, {}, gcblk, prmptr + bkdxu);
      var gcmptr := mem[prmptr + bkdxu];
      if gcmptr.a != 0 {
        ListedFrom(m, prmptr, bkdxu - 1, prmdx);
        assert Listed(m, prmptr, bkdxu - 1, prmdx) == Q + {gcmptr.a};
        RootReady(m, m1, W, P, Q, gcblk, gcmptr.a);
        Gcm(gcmptr.a, m);
        RootDone(m, m1, mem[..], W, Q, {}, gcmptr.a);
      } else {
        assert Listed(m, prmptr, bkdxu - 1, prmdx) == Q;
      }
      next := bkdxu - 1;
    }

    /** One string on a chain: if it is not marked and has a value or
        attributes, it is marked through the pseudo-block.  n is the memory
        before marking, but for the scratch cell. */
    method MarkString(st1ptr: int, ghost m: seq<Descr>, ghost n: seq<Descr>, ghost P: set<int>, ghost K: set<int>)
        returns (ghost n': seq<Descr>)
      requires BaseOk(m, W, P, gcblk) && ButScratch(m, n, gcblk + 1) && BaseOk(n, W, P, gcblk)
      requires MarkedFrom(n, mem[..], W, P, K) && ChainString(m, W, st1ptr)
      modifies mem, this`stack
      ensures 0 < st1ptr && st1ptr + 3 < |m| == mem.Length
      ensures ButScratch(m, n', gcblk + 1) && BaseOk(n', W, P, gcblk) && stack == old(stack)
      ensures MarkedFrom(n', mem[..], W, P, K + if Kept(m, st1ptr) then {st1ptr} else {})
    {
      hide BaseOk, MarkedFrom, Ready, Marked, AllClosed, Closed, Reach;
      n' := n;
      ghost var m1 := mem[..];
      StringKept(m, n, m1, W, P, K, gcblk, st1ptr);
      if mem[st1ptr].mark {
        StringSeen(n, m1, W, P, K, st1ptr);
        assert !Kept(m, st1ptr) ==> K + {} == K;
        return;
      }
      var st2ptr := mem[st1ptr + 1];
      if Dcmp(st2ptr, NULVCL) && mem[st1ptr + ATTRIB].a == 0 {
        assert K + {} == K;
        return;
      }
      ghost var d := Descr(st1ptr, 1, false, false, false, true, 0, "");
      PseudoCell(n, W, P, gcblk);
      n' := n[gcblk + 1 := d];
      MarkedScratch(n, m1, W, P, K, gcblk, d);
      BaseScratch(n, W, P, gcblk, d);
      PseudoReady(n', W, P, gcblk, st1ptr);
      mem[gcblk + 1] := Descr(st1ptr, 1, false, false, false, true, 0, "");
      ghost var m2 := mem[..];
      assert m2 == m1[gcblk + 1 := d];
      MarkedParts(n', m2, W, P, K);
      Gcm(gcblk, n');
      StringDone(n', m2, mem[..], W, P, K, gcblk, st1ptr);
    }

    /** All strings of one chain. */
    method MarkChain(bkptr: int, ghost c: seq<int>, ghost m: seq<Descr>, ghost n: seq<Descr>, ghost P: set<int>, ghost K: set<int>)
        returns (ghost n': seq<Descr>)
      requires BaseOk(m, W, P, gcblk) && ButScratch(m, n, gcblk + 1) && BaseOk(n, W, P, gcblk)
      requires MarkedFrom(n, mem[..], W, P, K) && IsChain(m, W, bkptr, c) && bkptr + LNKFLD != gcblk + 1
      modifies mem, this`stack
      ensures ButScratch(m, n', gcblk + 1) && BaseOk(n', W, P, gcblk) && stack == old(stack)
      ensures MarkedFrom(n', mem[..], W, P, K + KeptOf(m, c, |c|))
    {
      hide BaseOk, MarkedFrom, IsChain, ChainString, Kept, KeptOf, ButScratch;
      n' := n;
      ghost var i := 0;
      LinkKept(m, n', mem[..], W, P, K, gcblk, bkptr, c, 0);
      KeptNone(m, c);
      assert K + KeptOf(m, c, 0) == K;
      var st1ptr := mem[bkptr + LNKFLD].a;
      while st1ptr != 0
        invariant 0 <= i <= |c| && st1ptr == (if i < |c| then c[i] else 0) && stack == old(stack)
        invariant ButScratch(m, n', gcblk + 1) && BaseOk(n', W, P, gcblk)
        invariant MarkedFrom(n', mem[..], W, P, K + KeptOf(m, c, i))
        invariant i < |c| ==> ChainString(m, W, c[i]) && 0 < c[i]
        decreases |c| - i
      {
        ghost var K1 := K + KeptOf(m, c, i);
        n' := MarkString(st1ptr, m, n', P, K1);
        KeptNext(m, c, i);
        assert K + KeptOf(m, c, i + 1) == K1 + if Kept(m, st1ptr) then {st1ptr} else {};
        i := i + 1;
        LinkKept(m, n', mem[..], W, P, K + KeptOf(m, c, i), gcblk, bkptr, c, i);
        st1ptr := mem[st1ptr + LNKFLD].a;
      }
    }

    /** The strings of all chains. */
    method MarkStrings(ghost chains: seq<seq<int>>, ghost m: seq<Descr>, ghost P: set<int>) returns (ghost n: seq<Descr>)
      requires 0 < obsiz == |chains| && BaseOk(m, W, P, gcblk) && MarkedFrom(m, mem[..], W, P, {})
      requires forall k :: 0 <= k < obsiz ==> IsChain(m, W, oblist + k, chains[k])
      requires !(oblist + LNKFLD <= gcblk + 1 < oblist + LNKFLD + obsiz)
      modifies mem, this`stack
      ensures ButScratch(m, n, gcblk + 1) && BaseOk(n, W, P, gcblk) && stack == old(stack)
      ensures MarkedFrom(n, mem[..], W, P, KeptOn(m, chains, obsiz))
    {
      hide BaseOk, MarkedFrom, IsChain, KeptOf, ButScratch;
      n := m;
      NoScratch(m, W, P, gcblk);
      ghost var k := 0;
      var bkptr := oblist - 1;
      while bkptr < oblist + obsiz - 1
        invariant 0 <= k <= obsiz && bkptr == oblist - 1 + k && stack == old(stack)
        invariant ButScratch(m, n, gcblk + 1) && BaseOk(n, W, P, gcblk)
        invariant MarkedFrom(n, mem[..], W, P, KeptOn(m, chains, k))
      {
        bkptr := bkptr + 1;
        n := MarkChain(bkptr, chains[k], m, n, P, KeptOn(m, chains, k));
        k := k + 1;
      }
    }

    /** The live blocks at the front stay: the address of the first dead block,
        or where free storage begins. */
    method SkipMarked() returns (ttlcl: int, ghost k: int)
      requires Tiled(mem[..], W) && W.dyn != [] && W.lo == hdsgpt && W.hi == frsgpt
      ensures 0 <= k <= |W.dyn| && Settled(mem[..], W, k)
      ensures if k < |W.dyn| then 0 < ttlcl == W.dyn[k] < mem.Length && !mem[ttlcl].mark && ttlcl != frsgpt
              else ttlcl == frsgpt
      ensures ttlcl != frsgpt ==> 0 < ttlcl < mem.Length && !mem[ttlcl].mark
    {
      hide BkSize, BlockAt, Length, Stays;
      k := 0;
      assert Settled(mem[..], W, 0);
      assert hdsgpt == W.dyn[0];
      assert Room(mem[..], W, 0) == hdsgpt;
      NextTitle(mem[..], W, 0);
      var cpycl := hdsgpt;
      ttlcl := hdsgpt;
      while mem[ttlcl].mark
        invariant 0 <= k < |W.dyn| && Settled(mem[..], W, k)
        invariant 0 < ttlcl < mem.Length && ttlcl == W.dyn[k] == cpycl == Room(mem[..], W, k) && ttlcl != frsgpt
        decreases |W.dyn| - k
      {
        NextTitle(mem[..], W, k);
        RoomNext(mem[..], W, k);
        SettledNext(mem[..], W, k);
        var bkdx := BkSize(mem[ttlcl]);
        cpycl := cpycl + bkdx;
        ttlcl := ttlcl + bkdx;
        k := k + 1;
        if ttlcl == frsgpt {
          return;
        }
      }
    }

    /** New addresses for all marked blocks are computed and left in their
        titles.  The blocks before the first dead one need none. */
    method Forward()
      requires Tiled(mem[..], W) && Homed(mem[..], W) && W.dyn != [] && W.lo == hdsgpt && W.hi == frsgpt
      modifies mem, this`mvsgpt
      ensures Forwarded(old(mem[..]), mem[..], W, |W.dyn|) && Barrier(old(mem[..]), W, mvsgpt)
      ensures mvsgpt == old(mvsgpt) || mvsgpt > 0
      ensures (exists i :: 0 <= i < |W.dyn| && !Stays(old(mem[..]), W, i)) ==> mvsgpt > 0
    {
      hide Barrier, Forwarded, Homed, Length, Room, Stays, Tiled;
      ghost var m := mem[..];
      var ttlcl, k := SkipMarked();
      SettledForward(m, W, k);
      if ttlcl == frsgpt {
        SettledBarrier(m, W, k, mvsgpt);
        assert forall i :: 0 <= i < |W.dyn| ==> Stays(m, W, i);
        return;
      }
      SettledBarrier(m, W, k, ttlcl);
      mvsgpt := ttlcl;
      ForwardRest(m, ttlcl, k);
    }

    /** From the first dead block on, which has index k. */
    method ForwardRest(ghost m: seq<Descr>, first: int, ghost k: int)
      requires Tiled(m, W) && W.hi == frsgpt && mem[..] == m && Forwarded(m, m, W, k) && Settled(m, W, k)
      requires 0 <= k < |W.dyn| && 0 < first == W.dyn[k] < mem.Length && !mem[first].mark
      modifies mem
      ensures Forwarded(m, mem[..], W, |W.dyn|)
    {
      hide *;
      var ttlcl, cpycl := first, first;
      assert Room(m, W, k) == W.dyn[k] by { SettledRoom(m, W, k); }
      RoomNext(m, W, k);
      ForwardNext(m, m, m, W, k);
      var bkdx := BkSize(mem[ttlcl]);
      ghost var i := k;
      while true
        invariant |m| == mem.Length && k <= i < |W.dyn| && Forwarded(m, mem[..], W, i + 1)
        invariant ttlcl == W.dyn[i] && cpycl == Room(m, W, i + 1)
        invariant 0 < ttlcl < |m| && bkdx == BkSize(m[ttlcl])
        decreases |W.dyn| - i
      {
        NextTitle(m, W, i);
        ttlcl := ttlcl + bkdx;
        if ttlcl == frsgpt {
          return;
        }
        i := i + 1;
        ghost var n := mem[..];
        ForwardLook(m, n, W, i);
        RoomNext(m, W, i);
        bkdx := BkSize(mem[ttlcl]);
        if mem[ttlcl].mark {
          mem[ttlcl] := mem[ttlcl].(a := cpycl);
          cpycl := cpycl + bkdx;
        }
        assert mem[..] == if Stays(m, W, i) then n[W.dyn[i] := n[W.dyn[i]].(a := Room(m, W, i))] else n;
        ForwardNext(m, n, mem[..], W, i);
      }
    }

    /** One chain: dead strings are taken out; links become new addresses. */
    method RelinkChain(bkptr: int, ghost c: seq<int>, ghost m: seq<Descr>)
      requires Relinkable(m, mem[..], W, bkptr, c)
      modifies mem
      ensures Relinks(m, old(mem[..]), mem[..], W, bkptr, c, |c| + 1) && OnlyLinks(old(mem[..]), mem[..], bkptr, c)
    {
      hide Alive, NewHome, OnlyLinks, Relinkable, Relinks;
      ghost var n0, p, i := mem[..], 0, 0;
      var st1ptr, st2ptr := bkptr, bkptr;
      RelinksNone(m, n0, W, bkptr, c);
      assert NoneKept(m, c, 0, 0);
      while true
        invariant 0 <= p <= i <= |c| && NoneKept(m, c, p, i) && (p == 0 || Alive(m, c[p - 1]))
        invariant Relinks(m, n0, mem[..], W, bkptr, c, p) && OnlyLinks(n0, mem[..], bkptr, c)
        invariant st1ptr == (if i == 0 then bkptr else c[i - 1]) && st2ptr == if p == 0 then bkptr else c[p - 1]
        decreases |c| - i
      {
        ghost var n := mem[..];
        RelinkLook(m, n0, n, W, bkptr, c, p, i);
        st1ptr := mem[st1ptr + LNKFLD].a;
        if st1ptr == 0 {
          mem[st2ptr + LNKFLD] := mem[st2ptr + LNKFLD].(a := 0);
          assert NextKept(m, W, c, i) == 0;
          RelinksNext(m, n0, n, mem[..], W, bkptr, c, p, i);
          return;
        }
        if mem[st1ptr].mark {
          var blocl := mem[st1ptr].a;
          mem[st2ptr + LNKFLD] := mem[st2ptr + LNKFLD].(a := blocl);
          RelinksNext(m, n0, n, mem[..], W, bkptr, c, p, i);
          st2ptr, p := st1ptr, i + 1;
          assert NoneKept(m, c, p, i + 1);
        } else {
          assert NoneKept(m, c, p, i + 1);
        }
        i := i + 1;
      }
    }

    /** All chains. */
    method Relink(ghost chains: seq<seq<int>>, ghost m: seq<Descr>)
      requires 0 < obsiz == |chains| && Tiled(m, W) && Headed(m, mem[..], W) && Chained(mem[..], W, oblist, chains)
      modifies mem
      ensures Relinked(m, old(mem[..]), mem[..], W, oblist, chains, obsiz)
    {
      hide *;
      ghost var n0, k := mem[..], 0;
      RelinkedNone(m, n0, W, oblist, chains);
      var bkptr := oblist - 1;
      while bkptr < oblist + obsiz - 1
        invariant 0 <= k <= obsiz && bkptr == oblist - 1 + k
        invariant Relinked(m, n0, mem[..], W, oblist, chains, k)
      {
        bkptr := bkptr + 1;
        ghost var n := mem[..];
        RelinkableNext(m, n0, n, W, oblist, chains, k);
        RelinkChain(bkptr, chains[k], m);
        RelinkedNext(m, n0, n, mem[..], W, oblist, chains, k);
        k := k + 1;
      }
    }

    /** The first count descriptors of block t, last first. */
    method RelocateBlock(t: int, count: int, ghost m: seq<Descr>)
      requires Heads(m, mem[..], W) && Tiled(m, W) && Barrier(m, W, mvsgpt) && NullsBelow(m, {t}, mvsgpt)
      requires Followed(m, W, t) && count == Traced(m[t]) > 0
      requires forall x :: t < x <= t + count && 0 <= x < |m| ==> mem[x] == m[x]
      modifies mem
      ensures Heads(m, mem[..], W) && OneBlock(m, old(mem[..]), mem[..], W, t, 0, count)
    {
      hide *;
      ghost var n0 := mem[..];
      OneNone(m, n0, W, t, count);
      FollowedParts(m, n0, W, t);
      var bkdx := count;
      while bkdx != 0
        invariant 0 <= bkdx <= count && mem.Length == |m|
        invariant Heads(m, mem[..], W) && OneBlock(m, n0, mem[..], W, t, bkdx, count)
      {
        ghost var n := mem[..];
        FollowedSlot(m, W, t, bkdx);
        OneLook(m, n0, n, W, t, bkdx, count);
        var descl := mem[t + bkdx];
        NullsHere(m, t, bkdx, mvsgpt);
        RenameLook(m, n, W, descl, mvsgpt);
        if descl.ptr && descl.a >= mvsgpt {
          var topcl, ofset := Top(descl.a);
          descl := descl.(a := ofset + mem[topcl].a);
          mem[t + bkdx] := descl;
        }
        assert mem[..] == n[t + bkdx := Renamed(m, W, n0[t + bkdx])];
        OneNext(m, n0, n, mem[..], W, t, bkdx, count);
        bkdx := bkdx - 1;
        HeadsStill(m, n0, mem[..], W, t, bkdx, count);
      }
    }

    /** The marked blocks of the dynamic region. */
    method RelocateDynamic(ghost m: seq<Descr>, ghost P: set<int>)
      requires Relocatable(m, mem[..], W, P) && Barrier(m, W, mvsgpt) && NullsBelow(m, MarkedTo(m, W, |W.dyn|), mvsgpt)
      requires W.dyn != [] && W.lo == hdsgpt && W.hi == frsgpt
      modifies mem
      ensures Heads(m, mem[..], W) && Relocated(m, old(mem[..]), mem[..], W, MarkedTo(m, W, |W.dyn|))
    {
      hide Barrier, BlockAt, Followed, Heads, MarkedTo, OneBlock, Relocatable, Relocated, Stays;
      ghost var n0, i := mem[..], 0;
      RelocatableParts(m, n0, W, P);
      RelocatedNone(m, n0, W);
      MarkedNone(m, W);
      assert hdsgpt == W.dyn[0];
      var ttlcl := hdsgpt;
      while true
        invariant 0 <= i < |W.dyn| && ttlcl == W.dyn[i]
        invariant Heads(m, mem[..], W) && Relocated(m, n0, mem[..], W, MarkedTo(m, W, i))
        decreases |W.dyn| - i
      {
        ghost var n := mem[..];
        DynamicLook(m, n0, n, W, P, i);
        NextTitle(m, W, i);
        MarkedNext(m, W, i);
        var bkdxu := BkSize(mem[ttlcl]);
        assert bkdxu == BkSize(m[ttlcl]);
        var bkdx := if mem[ttlcl].sttl then 3 else bkdxu;
        if mem[ttlcl].mark {
          assert bkdx - 1 == Traced(m[ttlcl]);
          MarkedIn(m, W, i, |W.dyn|);
          NullsOne(m, MarkedTo(m, W, |W.dyn|), ttlcl, mvsgpt);
          RelocateBlock(ttlcl, bkdx - 1, m);
          RelocatedNext(m, n0, n, mem[..], W, MarkedTo(m, W, i), ttlcl);
        }
        assert MarkedTo(m, W, i) + {} == MarkedTo(m, W, i);
        ttlcl := ttlcl + bkdxu;
        i := i + 1;
        if ttlcl == frsgpt {
          assert i == |W.dyn|;
          return;
        }
      }
    }

    /** The permanent blocks of the table. */
    method RelocateListed(ghost m: seq<Descr>, ghost n0: seq<Descr>, ghost P: set<int>)
      requires 0 < prmptr && 0 < prmdx && prmptr + prmdx < |m| && P == Listed(m, prmptr, 0, prmdx)
      requires Relocatable(m, n0, W, P) && Barrier(m, W, mvsgpt) && NullsBelow(m, P, mvsgpt)
      requires ListedOnce(m, n0, W, P, prmptr, prmdx)
      requires Heads(m, mem[..], W) && Relocated(m, n0, mem[..], W, MarkedTo(m, W, |W.dyn|))
      modifies mem
      ensures Heads(m, mem[..], W) && Relocated(m, n0, mem[..], W, MarkedTo(m, W, |W.dyn|) + P)
    {
      hide *;
      ghost var all := MarkedTo(m, W, |W.dyn|);
      RelocatableParts(m, n0, W, P);
      HeadsParts(m, mem[..], W);
      ListedNone(m, prmptr, prmdx);
      assert all + {} == all;
      var bkdxu := prmdx;
      while bkdxu != 0
        invariant 0 <= bkdxu <= prmdx && mem.Length == |m|
        invariant Heads(m, mem[..], W) && Relocated(m, n0, mem[..], W, all + Listed(m, prmptr, bkdxu, prmdx))
      {
        ghost var n, done := mem[..], Listed(m, prmptr, bkdxu, prmdx);
        EntryLook(m, n0, n, W, P, prmptr, bkdxu, prmdx);
        var ttlcl := mem[prmptr + bkdxu];
        if ttlcl.a != 0 {
          ListedLook(m, n0, n, W, P, done, ttlcl.a);
          var bkdx := mem[ttlcl.a].v;
          NullsOne(m, P, ttlcl.a, mvsgpt);
          RelocateBlock(ttlcl.a, bkdx, m);
          RelocatedNext(m, n0, n, mem[..], W, all + done, ttlcl.a);
        }
        assert all + done + {ttlcl.a} == all + (done + {ttlcl.a}) && done + {} == done;
        bkdxu := bkdxu - 1;
      }
    }

    /** MOVBLK: the count descriptors behind from are copied behind to. */
    method MovBlk(to: int, from: int, count: int)
      requires 0 <= to <= from && 0 <= count && from + count < mem.Length
      modifies mem
      ensures forall x :: 0 <= x < mem.Length ==>
                mem[x] == if to < x <= to + count then old(mem[x - to + from]) else old(mem[x])
    {
      forall i | to < i <= to + count {
        mem[i] := mem[i - to + from];
      }
    }

    /** The block at ttlcl loses its mark and goes to the address in its title;
        below the barrier it is there already. */
    method SlideBlock(ttlcl: int, bkdxu: int)
      requires 0 < ttlcl && 0 < bkdxu && ttlcl + bkdxu <= mem.Length && 0 < mem[ttlcl].a <= ttlcl
      requires ttlcl < mvsgpt ==> mem[ttlcl].a == ttlcl
      modifies mem
      ensures OneMove(old(mem[..]), mem[..], ttlcl, old(mem[ttlcl].a), bkdxu)
    {
      hide Length, OneMove;
      ghost var n := mem[..];
      var topcl := mem[ttlcl].a;
      mem[topcl] := mem[ttlcl];
      mem[topcl] := mem[topcl].(mark := false);
      ghost var n1 := mem[..];
      assert n1 == n[topcl := n[ttlcl].(mark := false)];
      if ttlcl >= mvsgpt {
        MovBlk(topcl, ttlcl, bkdxu - 1);
      }
      assert forall x :: 0 <= x < |n| ==> mem[..][x] == Copied(n, n1, ttlcl, topcl, bkdxu, x);
      MoveMade(n, n1, mem[..], ttlcl, topcl, bkdxu);
    }

    /** All live blocks move; what lies behind the last one is free. */
    method Slide(ghost m: seq<Descr>)
      requires Tiled(m, W) && Heads(m, mem[..], W) && Barrier(m, W, mvsgpt)
      requires W.dyn != [] && W.lo == hdsgpt && W.hi == frsgpt
      requires exists i :: 0 <= i < |W.dyn| && Stays(m, W, i)
      modifies mem, this`frsgpt
      ensures Slid(m, old(mem[..]), mem[..], W, |W.dyn|) && frsgpt == Room(m, W, |W.dyn|)
    {
      hide Barrier, BkSize, BlockAt, Heads, Length, OneMove, Room, Slid, Stays;
      ghost var n0, k, last := mem[..], 0, -1;
      HeadsParts(m, n0, W);
      SlidNone(m, n0, W);
      LastNone(m, W);
      assert hdsgpt == W.dyn[0];
      var ttlcl, topcl := hdsgpt, 0;
      while true
        invariant 0 <= k < |W.dyn| && ttlcl == W.dyn[k] && frsgpt == W.hi
        invariant Slid(m, n0, mem[..], W, k) && LastLive(m, W, k, last) && (last < 0 || topcl == Room(m, W, last))
        invariant last < k
        decreases |W.dyn| - k
      {
        ghost var n := mem[..];
        SlidLook(m, n0, n, W, k, mvsgpt);
        NextTitle(m, W, k);
        LastNext(m, W, k, last);
        var bkdxu := BkSize(mem[ttlcl]);
        if ttlcl < mvsgpt || mem[ttlcl].mark {
          topcl := mem[ttlcl].a;
          SlideBlock(ttlcl, bkdxu);
          SlidNext(m, n0, n, mem[..], W, k);
          last := k;
        } else {
          SlidOver(m, n0, n, W, k);
        }
        ttlcl := ttlcl + bkdxu;
        k := k + 1;
        if ttlcl == frsgpt {
          break;
        }
      }
      assert last >= 0;
      LastTitle(m, n0, mem[..], W, last);
      frsgpt := topcl + BkSize(mem[topcl]);
    }

    function Tab(): Tables {
      Tables(prmptr, prmdx, oblist, obsiz, gcblk)
    }

    /** Everything that is live is marked. */
    method MarkAll(ghost chains: seq<seq<int>>)
      requires Sound(mem[..], W, Tab(), chains)
      modifies mem, this`stack
      ensures MarkedOk(mem[..], W, Tab(), Bases(old(mem[..]), Tab()), chains) && stack == old(stack)
      ensures LiveMarked(old(mem[..]), mem[..], W, Tab(), KeptOn(old(mem[..]), chains, |chains|))
    {
      hide BaseOk, Bases, ButScratch, IsChain, KeptOn, Listed, LiveMarked, MarkedFrom, MarkedOk, Sound;
      ghost var m0, T, K := mem[..], Tab(), KeptOn(mem[..], chains, |chains|);
      ghost var P := Bases(m0, T);
      SoundParts(m0, W, T, chains);
      MarkListed(m0);
      ghost var n := MarkStrings(chains, m0, P);
      assert Marks(m0, n, mem[..], W, T, P, K);
      MarksSound(m0, n, mem[..], W, T, P, K, chains);
      MarksLive(m0, n, mem[..], W, T, K);
    }

    /** The marked memory m is compacted. */
    method Compact(ghost m: seq<Descr>, ghost P: set<int>, ghost chains: seq<seq<int>>)
      requires mem[..] == m && MarkedOk(m, W, Tab(), P, chains) && W.dyn != [] && W.lo == hdsgpt && W.hi == frsgpt
      requires exists i :: 0 <= i < |W.dyn| && Stays(m, W, i)
      requires (exists i :: 0 <= i < |W.dyn| && !Stays(m, W, i)) || NullsBelow(m, MarkedTo(m, W, |W.dyn|) + P, mvsgpt)
      modifies mem, this`frsgpt, this`mvsgpt
      ensures mem.Length == |m| && Collected(m, mem[..], W, P, oblist, chains)
      ensures frsgpt == Room(m, W, |W.dyn|) && (mvsgpt == old(mvsgpt) || mvsgpt > 0)
      ensures (exists i :: 0 <= i < |W.dyn| && !Stays(m, W, i)) ==> mvsgpt > 0
    {
      hide Barrier, Bases, Chained, Collected, Forwarded, Headed, Heads, Homed, Length, Listed, ListedOnce, MarkedOk,
        MarkedTo, Relinked, Relocatable, Relocated, Room, Slid, Stays, Tiled;
      ghost var T := Tab();
      MarkedOkParts(m, W, T, P, chains);
      Forward();
      NullsParts(m, MarkedTo(m, W, |W.dyn|), P, mvsgpt);
      ghost var n1 := mem[..];
      ForwardedChained(m, n1, W, oblist, chains);
      ForwardedHeads(m, n1, W);
      Relink(chains, m);
      ghost var n2 := mem[..];
      RelinkedHeads(m, n1, n2, W, T, P, chains);
      RelinkedRelocatable(m, n1, n2, W, T, P, chains);
      RelinkedTable(m, n1, n2, W, T, P, chains);
      RelocateDynamic(m, P);
      RelocateListed(m, n2, P);
      ghost var n3 := mem[..];
      PreparedNow(m, n1, n2, n3, W, T, P, chains);
      Slide(m);
      CollectedNow(m, n1, n2, n3, mem[..], W, T, P, chains);
    }

    /** Storage is in order and the region is where the registers say. */
    ghost predicate Valid(chains: seq<seq<int>>)
      reads this, mem
    {
      Sound(mem[..], W, Tab(), chains) && W.lo == hdsgpt && W.hi == frsgpt <= tlsgp1 <= mem.Length
    }

    /** A collection is possible. */
    ghost predicate MayCollect(chains: seq<seq<int>>)
      reads this, mem
    {
      W.dyn != [] && Collectable(mem[..], W, Tab(), KeptOn(mem[..], chains, |chains|), mvsgpt)
    }

    /** GC: after a collection, is there room for a block of the requested size?
        m is the memory with the live blocks marked. */
    method Gc(gcreq: int, ghost chains: seq<seq<int>>) returns (ok: bool, gcgot: int, ghost m: seq<Descr>)
      requires Valid(chains) && MayCollect(chains)
      modifies mem, this`stack, this`frsgpt, this`mvsgpt, this`W
      ensures Regenerated(old(mem[..]), old(W), m, mem[..], W, Tab(), chains, NewChains(m, old(W), chains))
      ensures Valid(NewChains(m, old(W), chains)) && (mvsgpt == old(mvsgpt) || mvsgpt > 0) && stack == old(stack)
      ensures old(Tabled(chains)) ==> Tabled(NewChains(m, old(W), chains))
      ensures gcgot == tlsgp1 - frsgpt - 1 && (ok <==> gcreq <= gcgot)
    {
      hide Bases, Chained, Collectable, Collected, Homed, KeptOn, Length, LiveMarked, MarkedOk, NewChains, NewDyn,
        Room, Sound, Stays, Tiled;
      ghost var m0, W0, P := mem[..], W, Bases(mem[..], Tab());
      MarkAll(chains);
      m := mem[..];
      MarkedOkParts(m, W, Tab(), P, chains);
      StaysLive(m0, m, W, Tab(), chains, KeptOn(m0, chains, |chains|), mvsgpt);
      Compact(m, P, chains);
      SoundAgain(m, mem[..], W, Tab(), P, chains);
      WithinRegion(m, W);
      W := NewWorld(m, W);
      assert W.lo == hdsgpt && W.hi == frsgpt;
      assert Regenerated(m0, W0, m, mem[..], W, Tab(), chains, NewChains(m, W0, chains));
      if old(Tabled(chains)) {
        TableAgain(m0, W0, m, mem[..], W, Tab(), chains, NewChains(m, W0, chains), h, regs);
      }
      gcgot := tlsgp1 - frsgpt - 1;
      ok := gcreq <= gcgot;
    }

    /** BLOCK: an empty block of arg1 descriptors, after at most one collection.
        m1 and W1 are storage just before the block is laid out. */
    method Block(arg1: int, ghost chains: seq<seq<int>>)
        returns (r: Outcome, ghost gc: bool, ghost m: seq<Descr>, ghost m1: seq<Descr>, ghost W1: World, ghost chains1: seq<seq<int>>)
      requires Valid(chains) && 1 <= arg1
      requires arg1 < sizlmt && frsgpt + 1 + arg1 > tlsgp1 ==> MayCollect(chains)
      modifies mem, this`stack, this`frsgpt, this`mvsgpt, this`W
      ensures r.SizeError? <==> arg1 >= sizlmt
      ensures gc ==> Regenerated(old(mem[..]), old(W), m, m1, W1, Tab(), chains, chains1)
      ensures !gc ==> m1 == old(mem[..]) && W1 == old(W) && chains1 == chains
      ensures gc <==> arg1 < sizlmt && old(frsgpt) + 1 + arg1 > tlsgp1
      ensures Valid(chains1) && stack == old(stack) && (old(Tabled(chains)) ==> Tabled(chains1))
      ensures r.Got? ==> Emptied(m1, mem[..], W1.hi, arg1) && r.a == W1.hi && W == Longer(W1, arg1 + 1)
      ensures r.Got? ==> 0 < r.a && r.a + arg1 < mem.Length == |m1| && mem[r.a].a == r.a && mem[r.a].v == arg1 && mem[r.a].ttl
      ensures r.Got? ==> forall x :: 0 <= x <= r.a + arg1 && x != r.a ==> mem[x] == if x < r.a then m1[x] else ZEROCL
      ensures r.NoStorage? <==> gc && W1.hi + 1 + arg1 > tlsgp1
      ensures !r.Got? ==> mem[..] == m1 && W == W1
    {
      hide Added, Bases, BkSize, Emptied, Length, MayCollect, NewChains, Regenerated, Sound, Tiled;
      gc, m, m1, W1, chains1 := false, [], mem[..], W, chains;
      if arg1 >= sizlmt {
        return SizeError, gc, m, m1, W1, chains1;
      }
      while true
        invariant mem[..] == m1 && W == W1 && Valid(chains1) && stack == old(stack)
        invariant old(Tabled(chains)) ==> TableOk(m1, W1, Tab(), h, chains1, regs)
        invariant if gc then Regenerated(old(mem[..]), old(W), m, m1, W1, Tab(), chains, chains1) && frsgpt + 1 + arg1 <= tlsgp1
                             && old(frsgpt) + 1 + arg1 > tlsgp1
                  else m1 == old(mem[..]) && W1 == old(W) && chains1 == chains && frsgpt == old(frsgpt)
        invariant !gc && frsgpt + 1 + arg1 > tlsgp1 ==> MayCollect(chains)
        decreases !gc
      {
        var blocl := frsgpt;
        frsgpt := frsgpt + 1 + arg1;
        if tlsgp1 >= frsgpt {
          SoundRegion(m1, W1, Tab(), chains1);
          LayOut(blocl, arg1);
          EmptyAdded(m1, mem[..], W1, arg1);
          AddedSound(m1, mem[..], W1, Tab(), chains1);
          if old(Tabled(chains)) {
            TableAdded(m1, mem[..], W1, Tab(), h, chains1, regs);
          }
          W := Longer(W1, arg1 + 1);
          assert W.lo == hdsgpt && W.hi == frsgpt;
          EmptiedCells(m1, mem[..], blocl, arg1);
          return Got(blocl), gc, m, m1, W1, chains1;
        }
        frsgpt := blocl;
        var ok, gcgot;
        ok, gcgot, m := Gc(arg1, chains);
        gc, m1, W1, chains1 := true, mem[..], W, NewChains(m, old(W), chains);
        if !ok {
          return NoStorage, gc, m, m1, W1, chains1;
        }
      }
    }

    /** An empty block of the given size at address at. */
    method LayOut(at: int, size: int)
      requires 0 < at && 1 <= size && at + size < mem.Length
      modifies mem
      ensures Emptied(old(mem[..]), mem[..], at, size)
    {
      forall i | at <= i <= at + size {
        mem[i] := ZEROCL;
      }
      mem[at] := mem[at].(a := at);
      mem[at] := mem[at].(ttl := true);
      mem[at] := mem[at].(v := size);
    }

    /** SPLIT: the block that a4ptr points into ends there; what is behind it, if
        anything, becomes a block of its own. */
    method Split(a4ptr: int, ghost chains: seq<seq<int>>, ghost i: int) returns (ghost parted: bool)
      requires Valid(chains) && 0 <= i < |W.dyn| && 0 < W.dyn[i] <= a4ptr < mem.Length
      requires TopOf(mem[..], a4ptr) == W.dyn[i] && !mem[W.dyn[i]].sttl && a4ptr <= W.dyn[i] + mem[W.dyn[i]].v
      modifies mem, this`W
      ensures parted <==> old(W.dyn[i]) < a4ptr < old(W.dyn[i] + mem[W.dyn[i]].v) - 1
      ensures parted ==>
                && a4ptr + 1 < mem.Length
                && mem[old(W.dyn[i])].v == a4ptr - old(W.dyn[i]) && mem[a4ptr + 1].a == a4ptr + 1 && mem[a4ptr + 1].ttl
                && mem[old(W.dyn[i])].v + 1 + mem[a4ptr + 1].v == old(mem[W.dyn[i]].v)
                && forall x :: 0 <= x < mem.Length && x != old(W.dyn[i]) && x != a4ptr + 1 ==> mem[x] == old(mem[x])
      ensures Valid(chains) && (old(Tabled(chains)) ==> Tabled(chains))
      ensures parted ==> Cut(old(mem[..]), mem[..], old(W), i, a4ptr) && W == Parted(old(W), i, a4ptr)
      ensures !parted ==> mem[..] == old(mem[..]) && W == old(W)
    {
      hide Bases, BkSize, BlockAt, Length, Sound, Tab, Tiled, TopOf;
      parted := false;
      ghost var m := mem[..];
      SoundRegion(m, W, Tab(), chains);
      InRegion(m, W, i);
      BlockRange(m, W, i);
      var a5ptr, a6ptr := Top(a4ptr);
      if a6ptr == 0 {
        return;
      }
      var a7ptr := mem[a5ptr].v - a6ptr - 1;
      if a7ptr <= 0 {
        return;
      }
      parted := true;
      mem[a5ptr] := mem[a5ptr].(v := a6ptr);
      mem[a4ptr + 1] := ZEROCL;
      mem[a4ptr + 1] := mem[a4ptr + 1].(a := a4ptr + 1);
      mem[a4ptr + 1] := mem[a4ptr + 1].(ttl := true);
      mem[a4ptr + 1] := mem[a4ptr + 1].(v := a7ptr);
      assert Cut(m, mem[..], W, i, a4ptr);
      CutSound(m, mem[..], W, i, a4ptr, Tab(), chains);
      if old(Tabled(chains)) {
        TableCut(m, mem[..], W, i, a4ptr, Tab(), h, chains, regs);
      }
      W := Parted(W, i, a4ptr);
      assert W.lo == hdsgpt && W.hi == frsgpt;
    }

    /** An assignment: the value d is stored in a descriptor of dynamic block i. */
    method Store(x: int, d: Descr, ghost chains: seq<seq<int>>, ghost i: int)
      requires Valid(chains) && FollowedIn(mem[..], W, i, x) && !d.ttl && PtrOk(mem[..], W, d)
      modifies mem
      ensures 0 <= x < mem.Length && mem[..] == old(mem[..])[x := d]
      ensures Valid(chains) && (old(Tabled(chains)) ==> Tabled(chains))
    {
      hide Sound, TableOk, FollowedIn, PtrOk;
      ghost var m := mem[..];
      InRange(m, W, i, x);
      mem[x] := d;
      assert mem[..] == m[x := d];
      StoreSound(m, W, Tab(), chains, i, x, d);
      if old(Tabled(chains)) {
        TableStored(m, W, Tab(), h, chains, regs, i, x, d);
      }
    }

    // ------------------------------------------------------ the table of strings

    /** Storage and the table of strings are in order. */
    ghost predicate Tabled(chains: seq<seq<int>>)
      reads this, mem
    {
      && TableOk(mem[..], W, Tab(), h, chains, regs)
      && W.lo == hdsgpt && W.hi == frsgpt <= tlsgp1 <= mem.Length
    }

    /** LEXEQ: is s the string at t? */
    method Lexeq(s: string, t: int) returns (eq: bool)
      requires 0 <= t < mem.Length && mem[t].v >= 1 && t + LNKFLD + 1 + (mem[t].v - 1) / CPD < mem.Length
      ensures eq <==> Text(mem[..], t) == s
    {
      hide Text;
      ghost var m := mem[..];
      CharAt(m, t, 0);
      if |s| != mem[t].v {
        return false;
      }
      for i := 0 to |s|
        invariant forall j :: 0 <= j < i ==> Text(m, t)[j] == s[j]
      {
        CharAt(m, t, i);
        if CharOf(mem[t + LNKFLD + 1 + i / CPD], i % CPD) != s[i] {
          return false;
        }
      }
      return true;
    }

    /** A register is set to point to a. */
    method SetRegister(x: int, a: int, ghost chains: seq<seq<int>>, ghost k: int, ghost i: int, ghost s: string)
      requires Tabled(chains) && (x == regs.lst || x == regs.buk) && PtrOk(mem[..], W, Pointer(a))
      requires 0 <= k < |chains| && Passed(mem[..], h, chains[k], i, s)
      modifies mem
      ensures 0 < x < mem.Length && mem[..] == old(mem[..])[x := Pointer(a)]
      ensures Tabled(chains) && Passed(mem[..], h, chains[k], i, s)
    {
      hide TableOk, PtrOk, Passed, Tab;
      SetPassed(mem[..], W, Tab(), h, chains, regs, k, i, s, x, Pointer(a));
      SetTable(mem[..], W, Tab(), h, chains, regs, x, a);
      mem[x] := Pointer(a);
    }

    /** The walk along a chain: LSTPTR and BUKPTR end up before and behind the
        place where s belongs, unless it is there. */
    method Search(s: string, ghost chains: seq<seq<int>>) returns (found: bool, ghost i: int)
      requires Tabled(chains) && s != "" && 0 <= h.bin(s) < |chains|
      modifies mem
      ensures Tabled(chains) && OnlyRegisters(old(mem[..]), mem[..], regs)
      ensures 0 <= i <= |chains[h.bin(s)]| && 0 < regs.lst < mem.Length && 0 < regs.buk < mem.Length
      ensures mem[regs.lst] == Pointer(At(Tab(), h.bin(s), chains[h.bin(s)], i))
      ensures mem[regs.buk] == Pointer(Here(chains[h.bin(s)], i))
      ensures found ==> i < |chains[h.bin(s)]| && Text(mem[..], chains[h.bin(s)][i]) == s
      ensures !found ==> Between(mem[..], h, chains[h.bin(s)], i, s)
    {
      hide Between, Length, Order, Passed, PtrOk, TableOk, Text;
      ghost var k, m0 := h.bin(s), mem[..];
      ghost var c := chains[k];
      i := 0;
      NothingPassed(mem[..], h, c, s);
      PointerAt(mem[..], W, Tab(), h, chains, regs, k, 0);
      SetRegister(regs.buk, oblist + h.bin(s), chains, k, 0, s);
      assert OnlyRegisters(m0, mem[..], regs);
      while true
        invariant 0 <= i <= |c| && Tabled(chains) && Passed(mem[..], h, c, i, s) && OnlyRegisters(m0, mem[..], regs)
        invariant 0 < regs.buk < mem.Length && mem[regs.buk] == Pointer(At(Tab(), k, c, i))
        decreases |c| - i
      {
        found := Step(s, chains, k, i);
        assert OnlyRegisters(m0, mem[..], regs);
        if found {
          return;
        }
        var buk := mem[regs.buk].a;
        Look(mem[..], W, Tab(), h, chains, regs, k, i);
        assert buk == if i < |c| then c[i] else 0;
        if buk == 0 || mem[buk + LNKFLD].v > h.ord(s) {
          StopHere(mem[..], h, c, i, s);
          return;
        }
        PassOn(mem[..], h, c, i, s);
        i := i + 1;
      }
    }

    /** One step of the walk; is s the string it comes to? */
    method Step(s: string, ghost chains: seq<seq<int>>, ghost k: int, ghost i: int) returns (found: bool)
      requires Tabled(chains) && 0 <= k < |chains| && Passed(mem[..], h, chains[k], i, s) && 0 <= i <= |chains[k]|
      requires 0 < regs.buk < mem.Length && mem[regs.buk] == Pointer(At(Tab(), k, chains[k], i))
      modifies mem
      ensures Tabled(chains) && OnlyRegisters(old(mem[..]), mem[..], regs) && Passed(mem[..], h, chains[k], i, s)
      ensures 0 < regs.lst < mem.Length && mem[regs.lst] == Pointer(At(Tab(), k, chains[k], i))
      ensures mem[regs.buk] == Pointer(Here(chains[k], i))
      ensures found ==> i < |chains[k]| && Text(mem[..], chains[k][i]) == s
      ensures !found && i < |chains[k]| && Order(mem[..], chains[k][i]) <= h.ord(s) ==> Text(mem[..], chains[k][i]) != s
    {
      hide At, BinBlock, Interned, Length, OnlyRegisters, Order, Passed, Register, Sound, Tab, Text;
      Advance(s, chains, k, i);
      ghost var c, m := chains[k], mem[..];
      assert TableOk(m, W, Tab(), h, chains, regs);
      Look(m, W, Tab(), h, chains, regs, k, i);
      var buk := mem[regs.buk].a;
      found := false;
      if buk != 0 && mem[buk + LNKFLD].v == h.ord(s) {
        found := Lexeq(s, buk);
      } else if i < |c| && Order(m, c[i]) <= h.ord(s) {
        OtherNumber(m, h, chains, k, i, s);
      }
    }

    /** LSTPTR follows BUKPTR, and that the link. */
    method Advance(s: string, ghost chains: seq<seq<int>>, ghost k: int, ghost i: int)
      requires Tabled(chains) && 0 <= k < |chains| && Passed(mem[..], h, chains[k], i, s) && 0 <= i <= |chains[k]|
      requires 0 < regs.buk < mem.Length && mem[regs.buk] == Pointer(At(Tab(), k, chains[k], i))
      modifies mem
      ensures Tabled(chains) && OnlyRegisters(old(mem[..]), mem[..], regs) && Passed(mem[..], h, chains[k], i, s)
      ensures 0 < regs.lst < mem.Length && mem[regs.lst] == Pointer(At(Tab(), k, chains[k], i))
      ensures 0 < regs.buk < mem.Length && mem[regs.buk] == Pointer(Here(chains[k], i))
    {
      hide At, Here, Length, Order, Passed, PtrOk, Tab, TableOk;
      ghost var m0 := mem[..];
      PointerAt(m0, W, Tab(), h, chains, regs, k, i);
      SetRegister(regs.lst, mem[regs.buk].a, chains, k, i, s);
      ghost var m1 := mem[..];
      PointerAt(m1, W, Tab(), h, chains, regs, k, i);
      Look(m1, W, Tab(), h, chains, regs, k, i);
      SetRegister(regs.buk, mem[mem[regs.buk].a + LNKFLD].a, chains, k, i, s);
    }

    /** The string s is laid out where free storage begins and linked between
        LSTPTR and BUKPTR.  With convsw its characters are there already. */
    method Enter(s: string, convsw: bool, ghost i: int, ghost chains: seq<seq<int>>)
      requires Tabled(chains) && Placing(mem[..], Tab(), h, chains, regs, i, s)
      requires frsgpt + LNKFLD + 1 + (|s| - 1) / CPD + 1 <= tlsgp1
      requires convsw ==> Typed(mem[..], W, frsgpt, s)
      modifies mem, this`frsgpt, this`W
      ensures 0 <= i <= |chains[h.bin(s)]| && Tabled(Inserted(chains, h.bin(s), i, old(frsgpt)))
      ensures Text(mem[..], old(frsgpt)) == s && StringsKept(old(mem[..]), mem[..], chains)
      ensures frsgpt == old(frsgpt) + LNKFLD + 1 + (|s| - 1) / CPD + 1
      ensures W == Longer(old(W), frsgpt - old(frsgpt))
      ensures NewEntry(old(mem[..]), mem[..], LinkCell(oblist + h.bin(s), chains[h.bin(s)], i), old(frsgpt), |s|)
      ensures !convsw ==> mem[old(frsgpt) + 1] == NULVCL && mem[old(frsgpt) + ATTRIB] == ZEROCL
      ensures convsw ==> mem[old(frsgpt) + 1] == old(mem[frsgpt + 1]) && mem[old(frsgpt) + ATTRIB] == old(mem[frsgpt + ATTRIB])
    {
      hide Added, At, Bases, Between, BinBlock, BkSize, BlockOk, Chained, Here, Homed, Inserted, Interned, Laid,
        LinkCell, Length, Order, Permanent, Placed, Pointer, Register, Scratch, Sound, StringsKept, Text, Tiled, Typed;
      ghost var m0, T, k := mem[..], Tab(), h.bin(s);
      PlacingWhere(m0, W, T, h, chains, regs, i, s);
      assert 0 <= k < |chains| && s != "" && Between(m0, h, chains[k], i, s);
      var lcptr, lst := frsgpt, mem[regs.lst].a;
      LayString(lcptr, s, convsw, h.ord(s), mem[regs.buk].a);
      ghost var n := mem[..];
      mem[lst + LNKFLD] := mem[lst + LNKFLD].(a := lcptr);
      assert LinkSet(n, mem[..], lst + LNKFLD, lcptr);
      InsertTable(m0, n, mem[..], W, T, h, chains, regs, i, s);
      LaidAdded(m0, n, W, s, h.ord(s), Here(chains[k], i)) by {
        SoundBase(m0, W, T, chains);
      }
      NewEntryNow(m0, n, mem[..], W, lcptr, s, h.ord(s), Here(chains[k], i), lst + LNKFLD);
      W := Longer(W, LNKFLD + 1 + (|s| - 1) / CPD + 1);
      frsgpt := lcptr + LNKFLD + 1 + (|s| - 1) / CPD + 1;
      assert W.lo == hdsgpt && W.hi == frsgpt;
    }

    /** The block of the string s at address at, linked to link. */
    method LayString(at: int, s: string, convsw: bool, ord: int, link: int)
      requires 0 < at && s != "" && at + LNKFLD + 1 + (|s| - 1) / CPD + 1 <= mem.Length
      requires convsw ==> Typed(mem[..], W, at, s)
      modifies mem
      ensures Laid(old(mem[..]), mem[..], W, at, s, ord, link)
      ensures !convsw ==> mem[at + 1] == NULVCL && mem[at + ATTRIB] == ZEROCL
      ensures convsw ==> mem[at + 1] == old(mem[at + 1]) && mem[at + ATTRIB] == old(mem[at + ATTRIB])
    {
      hide PtrOk, Chars, Laid, Typed;
      ghost var m0 := mem[..];
      mem[at] := ZEROCL;
      mem[at] := mem[at].(a := at);
      mem[at] := mem[at].(ttl := true, sttl := true);
      mem[at] := mem[at].(v := |s|);
      ghost var m1 := mem[..];
      if !convsw {
        mem[at + 1] := NULVCL;
        mem[at + ATTRIB] := ZEROCL;
        PutChars(at + LNKFLD + 1, s);
      }
      ghost var m2 := mem[..];
      mem[at + LNKFLD] := mem[at + LNKFLD].(v := ord);
      mem[at + LNKFLD] := mem[at + LNKFLD].(a := link);
      LaidNow(m0, m1, m2, mem[..], W, at, s, convsw, ord, link);
    }

    /** APDSP: the characters of s into the cells from a on. */
    method PutChars(a: int, s: string)
      requires 0 < a && s != "" && a + (|s| - 1) / CPD < mem.Length
      modifies mem
      ensures forall x :: 0 <= x < a ==> mem[x] == old(mem[x])
      ensures Chars(mem[..], a, |s|) == s
    {
      hide Chars;
      var q, n := 0, (|s| - 1) / CPD + 1;
      while q < n
        invariant 0 <= q <= n
        invariant forall x :: 0 <= x < a ==> mem[x] == old(mem[x])
        invariant forall p :: 0 <= p < q ==> mem[a + p].chars == Piece(s, p)
      {
        mem[a + q] := mem[a + q].(chars := Piece(s, q));
        q := q + 1;
      }
      PiecesText(mem[..], a, s);
    }

    /** LOCA1: the address of the string s, which is entered in the table if it
        is not there yet, after at most one collection.  m1, W1 and chains1 are
        storage just before it is laid out. */
    method Loca1(s: string, convsw: bool, ghost chains: seq<seq<int>>)
        returns (r: Outcome, ghost found: bool, ghost gc: bool, ghost m0: seq<Descr>, ghost m: seq<Descr>, ghost m1: seq<Descr>,
                 ghost W1: World, ghost chains1: seq<seq<int>>, ghost i: int)
      requires Tabled(chains) && s != "" && 0 <= h.bin(s) < |chains|
      requires frsgpt + Length(s) + 1 > tlsgp1 && !Entered(s, chains) ==> !convsw && MayCollectFor(s, chains)
      requires convsw ==> Typed(mem[..], W, frsgpt, s)
      modifies mem, this`stack, this`frsgpt, this`mvsgpt, this`W
      ensures OnlyRegisters(old(mem[..]), m0, regs) && stack == old(stack)
      ensures 0 <= h.bin(s) < |chains1| == |chains| && 0 <= i <= |chains1[h.bin(s)]|
      ensures found <==> exists j :: 0 <= j < |chains[h.bin(s)]| && Text(m0, chains[h.bin(s)][j]) == s
      ensures gc ==> Regenerated(m0, old(W), m, m1, W1, Tab(), chains, chains1)
      ensures !gc ==> m1 == m0 && W1 == old(W) && chains1 == chains
      ensures gc <==> !found && Length(s) <= sizlmt && old(frsgpt) + Length(s) + 1 > tlsgp1
      ensures r.SizeError? <==> !found && Length(s) > sizlmt
      ensures r.NoStorage? <==> gc && W1.hi + Length(s) + 1 > tlsgp1
      ensures found || !r.Got? ==> mem[..] == m1 && W == W1 && Tabled(chains1)
      ensures found ==> r.Got? && i < |chains[h.bin(s)]| && r.a == chains[h.bin(s)][i] && Text(mem[..], r.a) == s
      ensures !found && r.Got? ==>
                && r.a == W1.hi && Text(mem[..], r.a) == s && W == Longer(W1, Length(s) + 1)
                && Tabled(Inserted(chains1, h.bin(s), i, r.a)) && StringsKept(m1, mem[..], chains1)
                && NewEntry(m1, mem[..], LinkCell(oblist + h.bin(s), chains1[h.bin(s)], i), r.a, |s|)
                && (!convsw ==> mem[r.a + 1] == NULVCL && mem[r.a + ATTRIB] == ZEROCL)
                && (convsw ==> mem[r.a + 1] == m1[r.a + 1] && mem[r.a + ATTRIB] == m1[r.a + ATTRIB])
    {
      hide At, Between, BinBlock, Collectable, Inserted, Interned, KeptOn, Longer, NewChains, OnlyRegisters,
        Regenerated, Register, Sound, StringsKept, Tab, Text, Typed;
      var hit;
      hit, i := Search(s, chains);
      found, gc, m0, m, m1, W1, chains1 := hit, false, mem[..], [], mem[..], W, chains;
      if hit {
        r := Got(mem[regs.buk].a);
        return;
      }
      NotFound(m0, h, chains, i, s);
      assert Placing(m0, Tab(), h, chains, regs, i, s);
      NotEntered(old(mem[..]), m0, W, Tab(), h, chains, regs, s);
      var bkltcl := Length(s);
      if bkltcl > sizlmt {
        r := SizeError;
        return;
      }
      if convsw {
        TypedStill(old(mem[..]), m0, W, Tab(), h, chains, regs, s);
      }
      while true
        invariant mem[..] == m1 && W == W1 && Tabled(chains1) && stack == old(stack) && |chains1| == |chains|
        invariant Placing(m1, Tab(), h, chains1, regs, i, s) && 0 <= i <= |chains1[h.bin(s)]|
        invariant if gc then Regenerated(m0, old(W), m, m1, W1, Tab(), chains, chains1) && frsgpt + bkltcl + 1 <= tlsgp1
                             && old(frsgpt) + bkltcl + 1 > tlsgp1
                  else m1 == m0 && W1 == old(W) && chains1 == chains && frsgpt == old(frsgpt) && mvsgpt == old(mvsgpt)
        decreases !gc
      {
        if tlsgp1 >= frsgpt + 1 + bkltcl {
          r := Got(frsgpt);
          Enter(s, convsw, i, chains1);
          return;
        }
        assert MayCollect(chains);
        var ok;
        ok, m, i := Regather(bkltcl, chains, i, s);
        gc, m1, W1, chains1 := true, mem[..], W, NewChains(m, old(W), chains);
        if !ok {
          r := NoStorage;
          return;
        }
      }
    }

    /** The string is in the table. */
    ghost predicate Entered(s: string, chains: seq<seq<int>>)
      reads mem
    {
      0 <= h.bin(s) < |chains| && exists j :: 0 <= j < |chains[h.bin(s)]| && Text(mem[..], chains[h.bin(s)][j]) == s
    }

    /** A collection is possible when the search for s has ended without success. */
    ghost predicate MayCollectFor(s: string, chains: seq<seq<int>>)
      reads this, mem
    {
      W.dyn != [] && forall m0, i :: OnlyRegisters(mem[..], m0, regs) && Placing(m0, Tab(), h, chains, regs, i, s) ==>
        Collectable(m0, W, Tab(), KeptOn(m0, chains, |chains|), mvsgpt)
    }

    /** A collection between the search and the insertion. */
    method Regather(bkltcl: int, ghost chains: seq<seq<int>>, ghost i: int, s: string)
        returns (ok: bool, ghost m: seq<Descr>, ghost i': int)
      requires Tabled(chains) && Placing(mem[..], Tab(), h, chains, regs, i, s) && MayCollect(chains)
      modifies mem, this`stack, this`frsgpt, this`mvsgpt, this`W
      ensures Regenerated(old(mem[..]), old(W), m, mem[..], W, Tab(), chains, NewChains(m, old(W), chains))
      ensures Tabled(NewChains(m, old(W), chains)) && stack == old(stack)
      ensures Placing(mem[..], Tab(), h, NewChains(m, old(W), chains), regs, i', s)
      ensures |NewChains(m, old(W), chains)| == |chains| && 0 <= h.bin(s) < |chains|
      ensures 0 <= i' <= |NewChains(m, old(W), chains)[h.bin(s)]|
      ensures ok <==> frsgpt + bkltcl + 1 <= tlsgp1
    {
      hide At, BinBlock, Here, Interned, Length, MayCollect, NewChain, NewPlace, Order, Pointer, Precedes,
        Regenerated, Register, Sound, Tab;
      ghost var m0, W0 := mem[..], W;
      assert Sound(m0, W, Tab(), chains);
      var gcgot;
      ok, gcgot, m := Gc(bkltcl, chains);
      assert 0 <= h.bin(s) < |chains| && 0 <= i <= |chains[h.bin(s)]|;
      assert |NewChains(m, W0, chains)| == |chains|;
      i' := NewPlace(m, W0, chains[h.bin(s)], i);
      PlacingAgain(m0, W0, m, mem[..], W, Tab(), chains, NewChains(m, W0, chains), h, regs, i, s);
      assert 0 <= i' <= |NewChains(m, W0, chains)[h.bin(s)]|;
    }
  }

  /** What the interpreter starts with: no block and no string yet. */
  method NewStorage(bins: nat, size: nat, sizlmt: int, h: Hash) returns (st: Storage, ghost chains: seq<seq<int>>)
    requires bins > 0
    ensures fresh(st) && fresh(st.mem) && st.Tabled(chains) && st.W.dyn == [] && chains == Empty(bins)
    ensures st.h == h && st.sizlmt == sizlmt && st.tlsgp1 - st.hdsgpt == size
  {
    BeginsInOrder(bins, size, h);
    chains := Empty(bins);
    st := new Storage(Memory(bins, size), TablesAt(bins), h, Registers(4, 5), bins + 12 + size, sizlmt, bins + 12, bins + 12,
                      Begin(bins), chains);
  }
}
