/** What a fragment of pattern code does, stated once for FULLSCAN and QUICKSCAN:
    it offers its continuation the ends of its pattern in order, and puts the
    history, the system stack and the name list back when it gives up. */
module PatternProof {
  import opened PatternAlgebra
  import opened PatternCode
  import opened PatternBuild
  import opened PatternMachine

  /** The surroundings of a fragment: its successor k and alternate a, the
      cursor and flag it was entered with, the history, stack and names below
      it, what is known of its continuation (dead(e): no success from cursor
      e), and whether it may report a length failure. */
  datatype Frame = Frame(k: int, a: int, c: int, lenf: bool, hist: seq<Entry>, stk: seq<int>, names: seq<Cap>,
                         dead: int -> bool, mute: bool)

  /** The fragment reaches its successor at the end of out, with new history h. */
  ghost function Goal(X: Frame, out: Out, h: seq<Entry>): State {
    Ok(X.k, out.end, X.hist + h, X.stk, X.names + out.caps)
  }

  /** The continuation has failed back into the fragment. */
  ghost function Retried(X: Frame, out: Out, h: seq<Entry>, b: bool): State {
    Back(b, X.hist + h, X.stk, X.names + out.caps)
  }

  /** The fragment has failed, with flag b. */
  ghost function Failed(X: Frame, b: bool): State {
    if X.a == 0 then Back(b, X.hist, X.stk, X.names) else Scan(X.a, X.c, b, X.hist, X.stk, X.names)
  }

  ghost predicate DeadFrom(dead: int -> bool, e: int) {
    forall e' :: e <= e' ==> dead(e')
  }

  /** A failing continuation at e is dead; if it reports a length failure it is
      dead from every later cursor, too.  FULLSCAN ignores the flag. */
  ghost predicate Fair(G: Ctx, dead: int -> bool, e: int, b: bool) {
    G.full || (dead(e) && (b ==> DeadFrom(dead, e)))
  }

  ghost predicate MayFail(G: Ctx, X: Frame, b: bool) {
    G.full || (b ==> X.lenf && X.mute)
  }

  /** From st the fragment offers the ends outs in order.  QUICKSCAN may leave
      out ends from which the continuation could not succeed. */
  ghost predicate Offers(G: Ctx, st: State, X: Frame, outs: seq<Out>)
    decreases |outs|
  {
    if outs == [] then exists b :: MayFail(G, X, b) && Reaches(G, st, Failed(X, b))
    else
      || (!G.full && X.dead(outs[0].end) && Offers(G, st, X, outs[1..]))
      || exists h :: OffersFirst(G, st, X, outs, h)
  }

  ghost predicate OffersFirst(G: Ctx, st: State, X: Frame, outs: seq<Out>, h: seq<Entry>)
    requires outs != []
    decreases |outs|, 0
  {
    && Reaches(G, st, Goal(X, outs[0], h))
    && forall b :: Fair(G, X.dead, outs[0].end, b) ==> Offers(G, Retried(X, outs[0], h, b), X, outs[1..])
  }

  // ------------------------------------------------------- working with offers

  ghost predicate AllDead(outs: seq<Out>, dead: int -> bool) {
    forall i :: 0 <= i < |outs| ==> dead(outs[i].end)
  }

  lemma OfferOne(G: Ctx, st: State, X: Frame, out: Out, h: seq<Entry>, rest: seq<Out>)
    requires Reaches(G, st, Goal(X, out, h))
    requires forall b :: Fair(G, X.dead, out.end, b) ==> Offers(G, Retried(X, out, h, b), X, rest)
    ensures Offers(G, st, X, [out] + rest)
  {
    var outs := [out] + rest;
    assert outs[1..] == rest;
    assert OffersFirst(G, st, X, outs, h);
  }

  lemma OfferNone(G: Ctx, st: State, X: Frame, b: bool)
    requires MayFail(G, X, b) && Reaches(G, st, Failed(X, b))
    ensures Offers(G, st, X, [])
  {
  }

  lemma {:induction false} OffersFrom(G: Ctx, st: State, st': State, X: Frame, outs: seq<Out>)
    requires Reaches(G, st, st') && Offers(G, st', X, outs)
    ensures Offers(G, st, X, outs)
    decreases |outs|
  {
    if outs == [] {
      var b :| MayFail(G, X, b) && Reaches(G, st', Failed(X, b));
      ReachesTrans(G, st, st', Failed(X, b));
    } else if !G.full && X.dead(outs[0].end) && Offers(G, st', X, outs[1..]) {
      OffersFrom(G, st, st', X, outs[1..]);
    } else {
      var h :| OffersFirst(G, st', X, outs, h);
      ReachesTrans(G, st, st', Goal(X, outs[0], h));
      assert OffersFirst(G, st, X, outs, h);
    }
  }

  lemma {:induction false} SkipAll(G: Ctx, st: State, X: Frame, outs: seq<Out>, rest: seq<Out>)
    requires (!G.full || outs == []) && AllDead(outs, X.dead) && Offers(G, st, X, rest)
    ensures Offers(G, st, X, outs + rest)
    decreases |outs|
  {
    if outs == [] {
      assert outs + rest == rest;
    } else {
      assert AllDead(outs[1..], X.dead);
      SkipAll(G, st, X, outs[1..], rest);
      assert (outs + rest)[1..] == outs[1..] + rest && (outs + rest)[0] == outs[0];
    }
  }

  /** One fragment after another: X1 runs on top of extra history hx and extra
      captures nx, and what it leaves over goes on as X2. */
  lemma {:induction false} Then(G: Ctx, st: State, X1: Frame, outs1: seq<Out>, X2: Frame, hx: seq<Entry>, nx: seq<Cap>, outs2: seq<Out>)
    requires X1.k == X2.k && X1.dead == X2.dead && X1.stk == X2.stk
    requires X1.hist == X2.hist + hx && X1.names == X2.names + nx
    requires Offers(G, st, X1, outs1)
    requires forall b :: MayFail(G, X1, b) && (G.full || AllDead(outs1, X1.dead)) ==> Offers(G, Failed(X1, b), X2, outs2)
    ensures Offers(G, st, X2, Prefixed(nx, outs1) + outs2)
    decreases |outs1|
  {
    if outs1 == [] {
      var b :| MayFail(G, X1, b) && Reaches(G, st, Failed(X1, b));
      OffersFrom(G, st, Failed(X1, b), X2, outs2);
      assert Prefixed(nx, outs1) + outs2 == outs2;
    } else {
      ThenStep(G, st, X1, outs1, X2, hx, nx, outs2);
    }
  }

  lemma {:induction false} ThenStep(G: Ctx, st: State, X1: Frame, outs1: seq<Out>, X2: Frame, hx: seq<Entry>, nx: seq<Cap>, outs2: seq<Out>)
    requires outs1 != []
    requires X1.k == X2.k && X1.dead == X2.dead && X1.stk == X2.stk
    requires X1.hist == X2.hist + hx && X1.names == X2.names + nx
    requires Offers(G, st, X1, outs1)
    requires forall b :: MayFail(G, X1, b) && (G.full || AllDead(outs1, X1.dead)) ==> Offers(G, Failed(X1, b), X2, outs2)
    ensures Offers(G, st, X2, Prefixed(nx, outs1) + outs2)
    decreases |outs1|, 0
  {
    var rest := outs1[1..];
    var more := Prefixed(nx, rest) + outs2;
    var out := Out(outs1[0].end, nx + outs1[0].caps);
    assert Prefixed(nx, outs1) + outs2 == [out] + more;
    assert X1.dead(outs1[0].end) && AllDead(rest, X1.dead) ==> AllDead(outs1, X1.dead);
    if !G.full && X1.dead(outs1[0].end) && Offers(G, st, X1, rest) {
      Then(G, st, X1, rest, X2, hx, nx, outs2);
      assert ([out] + more)[1..] == more;
    } else {
      var h :| OffersFirst(G, st, X1, outs1, h);
      assert X1.hist + h == X2.hist + (hx + h) && X1.names + outs1[0].caps == X2.names + out.caps;
      forall b | Fair(G, X2.dead, out.end, b)
        ensures Offers(G, Retried(X2, out, hx + h, b), X2, more)
      {
        Then(G, Retried(X1, outs1[0], h, b), X1, rest, X2, hx, nx, outs2);
      }
      OfferOne(G, st, X2, out, hx + h, more);
    }
  }

  lemma PrefixedNothing(outs: seq<Out>)
    ensures Prefixed([], outs) == outs
  {
    forall i | 0 <= i < |outs|
      ensures Prefixed([], outs)[i] == outs[i]
    {
      assert [] + outs[i].caps == outs[i].caps;
    }
  }

  // -------------------------------------------------------------- single nodes

  lemma NodeStep(G: Ctx, o: int, op: Op, a: int, k: int, len: int, r: int,
                 cur: int, lenf: bool, hist: seq<Entry>, stk: seq<int>, names: seq<Cap>)
    requires Has(G.code, o, Node(op, a, k, len, r)) && 0 <= cur <= |G.subj| && 0 <= r
    ensures var h := hist + [Entry(To(a), cur, r, lenf)];
            Step(G, Scan(o, cur, lenf, hist, stk, names))
            == if !G.full && cur + len > |G.subj| then Back(true, h, stk, names)
               else OpStep(G, o, op, k, r, cur, lenf, h, stk, names)
  {
    hide OpStep;
    var n := Node(op, a, k, len, r);
    assert G.code[o + 1] == n[0] && G.code[o + 2] == n[1] && G.code[o + 3] == n[2];
  }

  lemma ArgNodeStep(G: Ctx, o: int, op: Op, a: int, k: int, len: int, r: int, arg: Arg,
                    cur: int, lenf: bool, hist: seq<Entry>, stk: seq<int>, names: seq<Cap>)
    requires Has(G.code, o, ArgNode(op, a, k, len, r, arg)) && 0 <= cur <= |G.subj| && 0 <= r
    ensures var h := hist + [Entry(To(a), cur, r, lenf)];
            Step(G, Scan(o, cur, lenf, hist, stk, names))
            == if !G.full && cur + len > |G.subj| then Back(true, h, stk, names)
               else OpStep(G, o, op, k, r, cur, lenf, h, stk, names)
    ensures o + 4 < |G.code| && G.code[o + 4] == Parm(arg)
  {
    hide OpStep;
    var n := ArgNode(op, a, k, len, r, arg);
    assert G.code[o + 1] == n[0] && G.code[o + 2] == n[1] && G.code[o + 3] == n[2] && G.code[o + 4] == n[3];
  }

  /** The entry that a fragment's first node pushes. */
  ghost function Own(X: Frame, r: int): Entry {
    Entry(To(X.a), X.c, r, X.lenf)
  }

  /** Popping that entry is the fragment's failure. */
  lemma PopOwn(G: Ctx, X: Frame, r: int, b: bool)
    ensures Reaches(G, Back(b, X.hist + [Own(X, r)], X.stk, X.names), Failed(X, b && X.lenf))
  {
    var st := Back(b, X.hist + [Own(X, r)], X.stk, X.names);
    assert (X.hist + [Own(X, r)])[..|X.hist|] == X.hist;
    ReachesSelf(G, Failed(X, b && X.lenf));
    ReachesStep(G, st, Failed(X, b && X.lenf));
  }

  /** Popping an entry that leads to an inner node. */
  lemma PopTo(G: Ctx, b: bool, hist: seq<Entry>, e: Entry, stk: seq<int>, names: seq<Cap>)
    requires e.link.To? && e.link.a != 0
    ensures Step(G, Back(b, hist + [e], stk, names)) == Scan(e.link.a, e.cur, b && e.lenf, hist, stk, names)
  {
    assert (hist + [e])[..|hist|] == hist;
  }

  /** Every end that p reaches from c or later is dead. */
  ghost predicate Later(p: Pat, s: string, c: int, dead: int -> bool) {
    forall c' :: 0 <= c <= c' <= |s| ==> AllDead(Ends(p, s, c'), dead)
  }

  /** Too far to the right for r more characters means dead. */
  ghost predicate Residual(G: Ctx, r: int, dead: int -> bool) {
    G.full || forall e :: e + r > |G.subj| ==> dead(e)
  }

  // -------------------------------------------------------------------- leaves

  lemma LeafMonotone(l: Leaf, s: string, c: int, c': int)
    requires 0 <= c <= c' <= |s| && LeafEnd(l, s, c).Some? && LeafEnd(l, s, c').Some?
    ensures LeafEnd(l, s, c).value <= LeafEnd(l, s, c').value
  {
  }

  /** The node agrees with the algebra, and when it fails for length nothing
      that could still succeed lies further right. */
  lemma LeafTryCorrect(l: Leaf, s: string, full: bool, cur: int, r: int)
    requires LeafOk(l) && 0 <= cur <= |s|
    ensures var t := LeafTry(LeafOp(l), LeafArg(l), s, full, cur, r);
            match t
            case Hit(e) => LeafEnd(l, s, cur) == Some(e)
            case Altfail => LeafEnd(l, s, cur) == None
            case Alternate =>
              && (full ==> LeafEnd(l, s, cur) == None)
              && forall c :: cur <= c <= |s| && LeafEnd(l, s, c).Some? ==> !full && LeafEnd(l, s, c).value + r > |s|
  {
  }
}
