/** Compiled patterns match: by induction on the pattern, its code offers
    exactly the ends of the pattern algebra. */
module PatternCorrect {
  import opened PatternAlgebra
  import opened PatternCode
  import opened PatternBuild
  import opened PatternMachine
  import opened PatternProof

  /** FULLSCAN repeats an ARBNO body even when it matched null, so there the
      body must always consume something. */
  ghost predicate Productive(p: Pat, s: string) {
    match p
    case Alt(x, y) => Productive(x, s) && Productive(y, s)
    case Cat(x, y) => Productive(x, s) && Productive(y, s)
    case Arbno(b) => Productive(b, s) && Consumes(b, s)
    case Capture(b, _) => Productive(b, s)
    case _ => true
  }

  lemma ProductiveCases(x: Pat, y: Pat, name: string, s: string)
    ensures Productive(Alt(x, y), s) == Productive(Cat(x, y), s) == (Productive(x, s) && Productive(y, s))
    ensures Productive(Arbno(x), s) == (Productive(x, s) && Consumes(x, s))
    ensures Productive(Capture(x, name), s) == Productive(x, s)
  {
    hide Consumes;
  }

  ghost predicate Consumes(p: Pat, s: string) {
    forall c, o :: 0 <= c <= |s| && o in Ends(p, s, c) ==> c < o.end
  }

  /** The fragment for p sits at offset o in the surroundings X, and r
      characters are needed after it. */
  ghost predicate Stands(G: Ctx, p: Pat, o: int, X: Frame, r: int) {
    && 0 <= o && 0 <= r && 0 <= X.c <= |G.subj|
    && Has(G.code, o, Cells(p, o, X.k, X.a, r))
    && WellFormed(p) && (G.full ==> Productive(p, G.subj))
    && Residual(G, r, X.dead)
    && X.mute == Later(p, G.subj, X.c, X.dead)
  }

  ghost function Entered(X: Frame, o: int): State {
    Scan(o, X.c, X.lenf, X.hist, X.stk, X.names)
  }

  // -------------------------------------------------------------------- leaves

  lemma LeafCorrect(G: Ctx, l: Leaf, o: int, X: Frame, r: int)
    requires Stands(G, Single(l), o, X, r)
    ensures Offers(G, Entered(X, o), X, Ends(Single(l), G.subj, X.c))
  {
    hide Has, Cells, Offers, OffersFirst, Reaches, LeafTry, LeafEnd;
    var s, p, cur := G.subj, Single(l), X.c;
    var outs := Ends(p, s, cur);
    var h := X.hist + [Own(X, r)];
    CellsBase(l, o, X.k, X.a, r);
    ArgNodeStep(G, o, LeafOp(l), X.a, X.k, LeafMin(l) + r, r, LeafArg(l), cur, X.lenf, X.hist, X.stk, X.names);
    LeafTryCorrect(l, s, G.full, cur, r);
    var st := Step(G, Entered(X, o));
    if !G.full && cur + LeafMin(l) + r > |s| {
      TooShort(G, p, X, r);
      LeafFails(G, X, r, true, outs);
    } else {
      match LeafTry(LeafOp(l), LeafArg(l), s, G.full, cur, r)
      case Hit(e) =>
        LeafHits(G, l, X, r, e);
      case Alternate =>
        LeafMuted(G, l, X, r);
        LeafFails(G, X, r, true, outs);
      case Altfail =>
        LeafFails(G, X, r, false, outs);
    }
    OffersStep(G, Entered(X, o), X, outs);
  }

  lemma OffersStep(G: Ctx, st: State, X: Frame, outs: seq<Out>)
    requires Offers(G, Step(G, st), X, outs)
    ensures Offers(G, st, X, outs)
  {
    ReachesSelf(G, Step(G, st));
    ReachesStep(G, st, Step(G, st));
    OffersFrom(G, st, Step(G, st), X, outs);
  }

  /** When the subject is too short for p and what follows, every end of p from
      here on is dead. */
  lemma TooShort(G: Ctx, p: Pat, X: Frame, r: int)
    requires !G.full && 0 <= X.c <= |G.subj| && X.c + MinLen(p) + r > |G.subj| && Residual(G, r, X.dead)
    ensures AllDead(Ends(p, G.subj, X.c), X.dead) && Later(p, G.subj, X.c, X.dead)
  {
    hide Ends;
    forall c' | X.c <= c' <= |G.subj|
      ensures AllDead(Ends(p, G.subj, c'), X.dead)
    {
      var outs := Ends(p, G.subj, c');
      forall i | 0 <= i < |outs|
        ensures X.dead(outs[i].end)
      {
        assert outs[i] in outs;
        assert c' + MinLen(p) <= outs[i].end;
      }
    }
  }

  /** The first node fails with flag b before anything was offered. */
  lemma LeafFails(G: Ctx, X: Frame, r: int, b: bool, outs: seq<Out>)
    requires if G.full then outs == [] else AllDead(outs, X.dead)
    requires !G.full && b ==> X.mute
    ensures Offers(G, Back(b, X.hist + [Own(X, r)], X.stk, X.names), X, outs)
  {
    hide Offers;
    var st := Back(b, X.hist + [Own(X, r)], X.stk, X.names);
    PopOwn(G, X, r, b);
    OfferNone(G, st, X, b && X.lenf);
    SkipAll(G, st, X, outs, []);
    assert outs + [] == outs;
  }

  lemma LeafMuted(G: Ctx, l: Leaf, X: Frame, r: int)
    requires 0 <= X.c <= |G.subj| && Residual(G, r, X.dead)
    requires LeafTry(LeafOp(l), LeafArg(l), G.subj, G.full, X.c, r) == Alternate && LeafOk(l)
    ensures if G.full then Ends(Single(l), G.subj, X.c) == [] else Later(Single(l), G.subj, X.c, X.dead)
    ensures !G.full ==> AllDead(Ends(Single(l), G.subj, X.c), X.dead)
  {
    LeafTryCorrect(l, G.subj, G.full, X.c, r);
    hide LeafTry, LeafEnd;
  }

  lemma LeafHits(G: Ctx, l: Leaf, X: Frame, r: int, e: int)
    requires 0 <= X.c <= |G.subj| && LeafEnd(l, G.subj, X.c) == Some(e)
    requires X.mute == Later(Single(l), G.subj, X.c, X.dead)
    ensures Offers(G, Ok(X.k, e, X.hist + [Own(X, r)], X.stk, X.names), X, Ends(Single(l), G.subj, X.c))
  {
    hide Offers, OffersFirst, LeafEnd;
    var out, h := Out(e, []), [Own(X, r)];
    assert X.names + [] == X.names;
    ReachesSelf(G, Goal(X, out, h));
    forall b | Fair(G, X.dead, e, b)
      ensures Offers(G, Retried(X, out, h, b), X, [])
    {
      PopOwn(G, X, r, b);
      if !G.full && b {
        forall c' | X.c <= c' <= |G.subj| && LeafEnd(l, G.subj, c').Some?
          ensures X.dead(LeafEnd(l, G.subj, c').value)
        {
          LeafMonotone(l, G.subj, X.c, c');
        }
        assert Later(Single(l), G.subj, X.c, X.dead);
      }
      OfferNone(G, Retried(X, out, h, b), X, b && X.lenf);
    }
    OfferOne(G, Goal(X, out, h), X, out, h, []);
    assert Ends(Single(l), G.subj, X.c) == [out] + [];
  }

  // ----------------------------------------------------------------------- ARB

  /** All cursors from c to e, both included, are known to be dead (only
      QUICKSCAN needs to know). */
  ghost predicate DeadUpTo(G: Ctx, dead: int -> bool, c: int, e: int) {
    G.full || forall i :: c <= i <= e ==> dead(i)
  }

  /** ARB and BAL begin with a guard node, which does nothing but check the
      length and put the fragment's own entry on the history. */
  lemma GuardNode(G: Ctx, p: Pat, o: int, X: Frame, r: int, outs: seq<Out>)
    requires Stands(G, p, o, X, r) && (p.Arb? || p.Bal?) && outs == Ends(p, G.subj, X.c)
    requires G.full || X.c + r <= |G.subj|
             ==> Offers(G, Scan(o + 3, X.c, true, X.hist + [Own(X, r)], X.stk, X.names), X, outs)
    ensures Offers(G, Entered(X, o), X, outs)
  {
    hide Offers, Has, Cells, Step, Ends, Own;
    RetryParts(G, p, o, X, r);
    NodeStep(G, o, SCOK, X.a, o + 3, r, r, X.c, X.lenf, X.hist, X.stk, X.names);
    assert Own(X, r) == Entry(To(X.a), X.c, r, X.lenf) by { OwnIs(X, r); }
    if !G.full && X.c + r > |G.subj| {
      TooShort(G, p, X, r);
      LeafFails(G, X, r, true, outs);
    }
    OffersStep(G, Entered(X, o), X, outs);
  }

  lemma OwnIs(X: Frame, r: int)
    ensures Own(X, r) == Entry(To(X.a), X.c, r, X.lenf)
  {
  }

  lemma RetryParts(G: Ctx, p: Pat, o: int, X: Frame, r: int)
    requires Stands(G, p, o, X, r) && (p.Arb? || p.Bal?)
    ensures Has(G.code, o, Node(SCOK, X.a, o + 3, r, r))
    ensures Has(G.code, o + 3, Node(if p.Arb? then SCOK else BAL, o + 6, X.k, r, r))
    ensures Has(G.code, o + 6, Node(if p.Arb? then FARB else BALF, o + 6, X.k, r, r))
  {
    hide Cells, Has;
    CellsBase(Lit(""), o, X.k, X.a, r);
    RetryNodes(G.code, if p.Arb? then SCOK else BAL, if p.Arb? then FARB else BALF, o, X.k, X.a, r);
  }

  lemma ArbCorrect(G: Ctx, o: int, X: Frame, r: int)
    requires Stands(G, Arb, o, X, r)
    ensures Offers(G, Entered(X, o), X, Ends(Arb, G.subj, X.c))
  {
    hide Cells, Has, Offers, OffersFirst, Reaches, Step, Node;
    var s, c := G.subj, X.c;
    var h1 := X.hist + [Own(X, r)];
    var st := Scan(o + 3, c, true, h1, X.stk, X.names);
    if G.full || c + r <= |s| {
      var e3 := Entry(To(o + 6), c, r, true);
      var out, h := Out(c, []), [Own(X, r), e3];
      RetryParts(G, Arb, o, X, r);
      NodeStep(G, o + 3, SCOK, o + 6, X.k, r, r, c, true, h1, X.stk, X.names);
      assert h1 + [e3] == X.hist + h && X.names + [] == X.names;
      forall b | Fair(G, X.dead, c, b)
        ensures Offers(G, Retried(X, out, h, b), X, ArbEnds(s, c + 1))
      {
        PopTo(G, b, h1, e3, X.stk, X.names);
        ArbRetry(G, o, X, r, c, b);
        OffersStep(G, Retried(X, out, h, b), X, ArbEnds(s, c + 1));
      }
      ReachesSelf(G, Goal(X, out, h));
      ReachesStep(G, st, Goal(X, out, h));
      OfferOne(G, st, X, out, h, ArbEnds(s, c + 1));
    }
    GuardNode(G, Arb, o, X, r, ArbEnds(s, c));
  }

  lemma RetryNodes(code: seq<Cell>, first: Op, retry: Op, o: int, k: int, a: int, r: int)
    requires Has(code, o, Retry(first, retry, o, k, a, r))
    ensures Has(code, o, Node(SCOK, a, o + 3, r, r))
    ensures Has(code, o + 3, Node(first, o + 6, k, r, r)) && Has(code, o + 6, Node(retry, o + 6, k, r, r))
  {
    hide Has, Node;
    HasSplit(code, o, Node(SCOK, a, o + 3, r, r), Node(first, o + 6, k, r, r) + Node(retry, o + 6, k, r, r));
    HasSplit(code, o + 3, Node(first, o + 6, k, r, r), Node(retry, o + 6, k, r, r));
  }

  /** ARB has been tried up to e and the continuation failed there. */
  lemma {:induction false} ArbRetry(G: Ctx, o: int, X: Frame, r: int, e: int, b: bool)
    requires Stands(G, Arb, o, X, r) && X.c <= e <= |G.subj| && (G.full || e + r <= |G.subj|)
    requires DeadUpTo(G, X.dead, X.c, e) && (G.full || (b ==> DeadFrom(X.dead, e)))
    ensures Offers(G, Scan(o + 6, e, b, X.hist + [Own(X, r)], X.stk, X.names), X, ArbEnds(G.subj, e + 1))
    decreases |G.subj| - e
  {
    hide Cells, Offers, OffersFirst, Reaches, Step, Node;
    var s, h1 := G.subj, X.hist + [Own(X, r)];
    var e6 := Entry(To(o + 6), e, r, b);
    var st, outs := Scan(o + 6, e, b, h1, X.stk, X.names), ArbEnds(s, e + 1);
    RetryParts(G, Arb, o, X, r);
    NodeStep(G, o + 6, FARB, o + 6, X.k, r, r, e, b, h1, X.stk, X.names);
    assert (h1 + [e6])[..|h1|] == h1;
    var limit := |s| - if G.full then 0 else r;
    if (!G.full && b) || e >= limit {
      if !G.full {
        ArbExhausted(G, X, r, e, b);
      }
      LeafFails(G, X, r, true, outs);
    } else {
      var e7 := e6.(cur := e + 1);
      var out, h := Out(e + 1, []), [Own(X, r), e7];
      assert (h1 + [e6])[|h1| := e7] == X.hist + h && X.names + [] == X.names;
      forall b' | Fair(G, X.dead, e + 1, b')
        ensures Offers(G, Retried(X, out, h, b'), X, ArbEnds(s, e + 2))
      {
        assert X.hist + h == h1 + [e7];
        PopTo(G, b', h1, e7, X.stk, X.names);
        ArbRetry(G, o, X, r, e + 1, b' && b);
        OffersStep(G, Retried(X, out, h, b'), X, ArbEnds(s, e + 2));
      }
      ReachesSelf(G, Goal(X, out, h));
      OfferOne(G, Goal(X, out, h), X, out, h, ArbEnds(s, e + 2));
    }
    OffersStep(G, st, X, outs);
  }

  lemma ArbExhausted(G: Ctx, X: Frame, r: int, e: int, b: bool)
    requires !G.full && 0 <= X.c <= e <= |G.subj| && Residual(G, r, X.dead)
    requires DeadUpTo(G, X.dead, X.c, e) && (b ==> DeadFrom(X.dead, e)) && (b || e >= |G.subj| - r)
    ensures AllDead(ArbEnds(G.subj, e + 1), X.dead) && Later(Arb, G.subj, X.c, X.dead)
  {
    assert forall i :: X.c <= i ==> X.dead(i);
    forall c' | X.c <= c' <= |G.subj|
      ensures AllDead(Ends(Arb, G.subj, c'), X.dead)
    {
      ArbDead(G.subj, c', X.c, X.dead);
    }
    ArbDead(G.subj, e + 1, X.c, X.dead);
  }

  lemma ArbDead(s: string, c: int, lo: int, dead: int -> bool)
    requires 0 <= lo <= c && forall i :: lo <= i ==> dead(i)
    ensures AllDead(ArbEnds(s, c), dead)
  {
    var outs := ArbEnds(s, c);
    forall i | 0 <= i < |outs|
      ensures dead(outs[i].end)
    {
      assert outs[i] in outs;
    }
  }

  // ----------------------------------------------------------------------- BAL

  lemma {:induction false} DepthAdds(s: string, c: int, e: int, m: int)
    requires 0 <= c <= e <= m <= |s|
    ensures Depth(s, c, m) == Depth(s, c, e) + Depth(s, e, m)
    decreases m - e
  {
    if e < m {
      DepthAdds(s, c, e, m - 1);
    }
  }

  /** After one balanced stretch the rest balances on its own. */
  lemma BalancedShift(s: string, c: int, e: int, j: int)
    requires 0 <= c && e < j <= |s| && Balanced(s, c, e)
    ensures Balanced(s, c, j) <==> Balanced(s, e, j)
  {
    forall m | e <= m <= j
      ensures Depth(s, c, m) == Depth(s, e, m)
    {
      DepthAdds(s, c, e, m);
    }
  }

  lemma {:induction false} BalEndsShift(s: string, c: int, e: int, lo: int)
    requires 0 <= c && e <= |s| && Balanced(s, c, e) && e < lo
    ensures BalEnds(s, c, lo) == BalEnds(s, e, lo)
    decreases |s| - lo
  {
    hide Balanced;
    BalancedMeans(s, c, e);
    if lo <= |s| {
      BalancedShift(s, c, e, lo);
      BalEndsShift(s, c, e, lo + 1);
    }
  }

  lemma BalancedMeans(s: string, c: int, e: int)
    requires 0 <= c && e <= |s| && Balanced(s, c, e)
    ensures c < e
  {
  }

  lemma {:induction false} BalEndsSkip(s: string, c: int, lo: int, hi: int)
    requires 0 <= c < lo <= hi <= |s| + 1 && forall j :: lo <= j < hi ==> !Balanced(s, c, j)
    ensures BalEnds(s, c, lo) == BalEnds(s, c, hi)
    decreases hi - lo
  {
    if lo < hi {
      BalEndsSkip(s, c, lo + 1, hi);
    }
  }

  /** The left-to-right count finds the shortest balanced extension, or there
      is none within the limit. */
  lemma {:induction false} ShortBalCorrect(s: string, c: int, e: int, hi: int)
    requires 0 <= c <= e && hi <= |s| && e <= |s|
    requires forall m :: c < m <= e ==> Depth(s, c, m) > 0
    ensures match ShortBal(s, c, e, hi)
            case Some(x) => Balanced(s, c, x) && forall j :: c < j < x ==> !Balanced(s, c, j)
            case None => forall j :: c < j <= hi ==> !Balanced(s, c, j)
    decreases hi - e
  {
    if e < hi && Depth(s, c, e + 1) > 0 {
      ShortBalCorrect(s, c, e + 1, hi);
    }
  }

  lemma NextBalEnd(s: string, c: int, hi: int)
    requires 0 <= c <= |s| && hi <= |s|
    ensures match ShortBal(s, c, c, hi)
            case Some(x) => x <= |s| && BalEnds(s, c, c + 1) == [Out(x, [])] + BalEnds(s, x, x + 1)
            case None => forall o :: o in BalEnds(s, c, c + 1) ==> o.end > hi
  {
    ShortBalCorrect(s, c, c, hi);
    match ShortBal(s, c, c, hi)
    case Some(x) =>
      BalEndsSkip(s, c, c + 1, x);
      BalEndsShift(s, c, x, x + 1);
    case None =>
      var m := if hi < c then c + 1 else hi + 1;
      BalEndsSkip(s, c, c + 1, m);
  }

  lemma BalEndsBound(s: string, c: int, lo: int, o: Out)
    requires 0 <= c < lo && o in BalEnds(s, c, lo)
    ensures lo <= o.end <= |s|
  {
  }

  lemma BalEndsAll(s: string, c: int, lo: int)
    requires 0 <= c < lo
    ensures forall o :: o in BalEnds(s, c, lo) ==> lo <= o.end <= |s|
  {
  }

  lemma BalCorrect(G: Ctx, o: int, X: Frame, r: int)
    requires Stands(G, Bal, o, X, r)
    ensures Offers(G, Entered(X, o), X, Ends(Bal, G.subj, X.c))
  {
    hide Cells, Has, Offers, Step, BalStep, Node, Own;
    var s, c := G.subj, X.c;
    var outs := BalEnds(s, c, c + 1);
    if G.full || c + r <= |s| {
      var h1 := X.hist + [Own(X, r)];
      var st := Scan(o + 3, c, true, h1, X.stk, X.names);
      RetryParts(G, Bal, o, X, r);
      NodeStep(G, o + 3, BAL, o + 6, X.k, r, r, c, true, h1, X.stk, X.names);
      BalTry(G, o, X, r, c, Entry(To(o + 6), c, r, true));
      OffersStep(G, st, X, outs);
    }
    GuardNode(G, Bal, o, X, r, outs);
  }

  /** BAL stands at e, its last end, with its own entry e6 on the history. */
  lemma {:induction false} BalTry(G: Ctx, o: int, X: Frame, r: int, e: int, e6: Entry)
    requires Stands(G, Bal, o, X, r) && X.c <= e <= |G.subj| && (G.full || e + r <= |G.subj|)
    requires e6.link == To(o + 6)
    ensures Offers(G, BalStep(G, X.k, r, e, X.hist + [Own(X, r)] + [e6], X.stk, X.names), X, BalEnds(G.subj, e, e + 1))
    decreases |G.subj| - e, 1
  {
    hide Cells, Offers, OffersFirst, Reaches, Step, Node, BalEnds, Ends;
    var s, h1 := G.subj, X.hist + [Own(X, r)];
    var outs, limit := BalEnds(s, e, e + 1), |s| - (if G.full then 0 else r);
    assert (h1 + [e6])[..|h1|] == h1;
    NextBalEnd(s, e, limit);
    if e >= limit || ShortBal(s, e, e, limit).None? {
      forall i | 0 <= i < |outs|
        ensures limit < outs[i].end <= |s|
      {
        assert outs[i] in outs;
        BalEndsBound(s, e, e + 1, outs[i]);
      }
      assert outs == [] || outs[0] in outs;
      BalEndsAll(s, e, e + 1);
      LeafFails(G, X, r, false, outs);
    } else {
      var x := ShortBal(s, e, e, limit).value;
      var e7 := e6.(cur := x);
      var out, h, rest := Out(x, []), [Own(X, r), e7], BalEnds(s, x, x + 1);
      assert (h1 + [e6])[|h1| := e7] == X.hist + h == h1 + [e7] && X.names + [] == X.names;
      forall b | Fair(G, X.dead, x, b)
        ensures Offers(G, Retried(X, out, h, b), X, rest)
      {
        PopTo(G, b, h1, e7, X.stk, X.names);
        BalRetry(G, o, X, r, x, b && e7.lenf);
        OffersStep(G, Retried(X, out, h, b), X, rest);
      }
      ReachesSelf(G, Goal(X, out, h));
      OfferOne(G, Goal(X, out, h), X, out, h, rest);
    }
  }

  lemma {:induction false} BalRetry(G: Ctx, o: int, X: Frame, r: int, e: int, b: bool)
    requires Stands(G, Bal, o, X, r) && X.c <= e <= |G.subj| && (G.full || e + r <= |G.subj|)
    requires G.full || (b ==> DeadFrom(X.dead, e))
    ensures Offers(G, Scan(o + 6, e, b, X.hist + [Own(X, r)], X.stk, X.names), X, BalEnds(G.subj, e, e + 1))
    decreases |G.subj| - e, 2
  {
    hide Cells, Offers, OffersFirst, Reaches, Step, Node, BalStep, BalEnds, Ends;
    var h1, outs := X.hist + [Own(X, r)], BalEnds(G.subj, e, e + 1);
    var e6 := Entry(To(o + 6), e, r, b);
    RetryParts(G, Bal, o, X, r);
    NodeStep(G, o + 6, BALF, o + 6, X.k, r, r, e, b, h1, X.stk, X.names);
    if !G.full && b {
      assert (h1 + [e6])[..|h1|] == h1;
      forall i | 0 <= i < |outs|
        ensures X.dead(outs[i].end)
      {
        assert outs[i] in outs;
        BalEndsBound(G.subj, e, e + 1, outs[i]);
      }
      LeafFails(G, X, r, false, outs);
    } else {
      BalTry(G, o, X, r, e, e6);
    }
    OffersStep(G, Scan(o + 6, e, b, h1, X.stk, X.names), X, outs);
  }

  // --------------------------------------------- alternation and concatenation

  lemma AltParts(G: Ctx, x: Pat, y: Pat, o: int, X: Frame, r: int)
    requires Stands(G, Alt(x, y), o, X, r)
    ensures var m := o + Size(x);
            && m > 0 && 0 <= X.c <= |G.subj|
            && Stands(G, x, o, X.(a := m, mute := Later(x, G.subj, X.c, X.dead)), r)
            && forall b :: Stands(G, y, m, X.(lenf := b, mute := Later(y, G.subj, X.c, X.dead)), r)
    ensures Later(x, G.subj, X.c, X.dead) && Later(y, G.subj, X.c, X.dead) ==> X.mute
  {
    hide Cells, Has, Residual, Ends, Later, Size, MinLen, Node, ArgNode, Own, WellFormed, Productive, Consumes;
    var m, s := o + Size(x), G.subj;
    WellFormedCases(x, y, "");
    ProductiveCases(x, y, "", s);
    CellsAlt(x, y, o, X.k, X.a, r);
    HasSplit(G.code, o, Cells(x, o, X.k, m, r), Cells(y, m, X.k, X.a, r));
    if Later(x, s, X.c, X.dead) && Later(y, s, X.c, X.dead) {
      LaterAlt(x, y, s, X.c, X.dead);
    }
  }

  lemma LaterAlt(x: Pat, y: Pat, s: string, c: int, dead: int -> bool)
    requires Later(x, s, c, dead) && Later(y, s, c, dead)
    ensures Later(Alt(x, y), s, c, dead)
  {
    hide Ends;
    forall c' | 0 <= c <= c' <= |s|
      ensures AllDead(Ends(Alt(x, y), s, c'), dead)
    {
      EndsAlt(x, y, s, c');
    }
  }

  lemma {:induction false} AltCorrect(G: Ctx, x: Pat, y: Pat, o: int, X: Frame, r: int)
    requires Stands(G, Alt(x, y), o, X, r)
    ensures Offers(G, Entered(X, o), X, Ends(Alt(x, y), G.subj, X.c))
    decreases Alt(x, y), 0, 0
  {
    hide Stands, Offers, Ends, Later, Size, Residual;
    var m, s, c := o + Size(x), G.subj, X.c;
    AltParts(G, x, y, o, X, r);
    var X1 := X.(a := m, mute := Later(x, s, c, X.dead));
    Correct(G, x, o, X1, r);
    forall b | MayFail(G, X1, b)
      ensures Offers(G, Failed(X1, b), X, Ends(y, s, c))
    {
      var X2 := X.(lenf := b, mute := Later(y, s, c, X.dead));
      Correct(G, y, m, X2, r);
      Weaken(G, Entered(X2, m), X2, X, Ends(y, s, c));
    }
    Then(G, Entered(X, o), X1, Ends(x, s, c), X, [], [], Ends(y, s, c));
    PrefixedNothing(Ends(x, s, c));
    EndsAlt(x, y, s, c);
  }

  /** A frame may be exchanged for one that may fail at least as often. */
  lemma Weaken(G: Ctx, st: State, X1: Frame, X2: Frame, outs: seq<Out>)
    requires X2 == X1.(lenf := X2.lenf, mute := X2.mute)
    requires forall b :: MayFail(G, X1, b) ==> MayFail(G, X2, b)
    requires Offers(G, st, X1, outs)
    ensures Offers(G, st, X2, outs)
  {
    forall b | MayFail(G, X1, b)
      ensures Offers(G, Failed(X1, b), X2, [])
    {
      ReachesSelf(G, Failed(X2, b));
      OfferNone(G, Failed(X1, b), X2, b);
    }
    assert X1.hist == X2.hist + [] && X1.names == X2.names + [];
    Then(G, st, X1, outs, X2, [], [], []);
    PrefixedNothing(outs);
    assert outs + [] == outs;
  }

  /** What makes the continuation of x dead when y comes next. */
  ghost function DeadThrough(y: Pat, s: string, dead: int -> bool): int -> bool {
    e => 0 <= e <= |s| ==> AllDead(Ends(y, s, e), dead)
  }

  lemma PrefixedDead(nx: seq<Cap>, outs: seq<Out>, dead: int -> bool)
    requires AllDead(outs, dead)
    ensures AllDead(Prefixed(nx, outs), dead)
  {
  }

  lemma {:induction false} CatEndsDead(y: Pat, s: string, outs: seq<Out>, lo: int, dead: int -> bool)
    requires forall o :: o in outs ==> 0 <= lo <= o.end <= |s|
    requires AllDead(outs, DeadThrough(y, s, dead))
    ensures AllDead(CatEnds(y, s, outs, lo), dead)
    decreases |outs|
  {
    if outs != [] {
      assert outs[0] in outs && AllDead(outs[1..], DeadThrough(y, s, dead));
      PrefixedDead(outs[0].caps, Ends(y, s, outs[0].end), dead);
      CatEndsDead(y, s, outs[1..], lo, dead);
    }
  }

  lemma LaterCat(x: Pat, y: Pat, s: string, c: int, dead: int -> bool)
    requires Later(x, s, c, DeadThrough(y, s, dead))
    ensures Later(Cat(x, y), s, c, dead)
  {
    hide Ends, DeadThrough, AllDead;
    forall c' | 0 <= c <= c' <= |s|
      ensures AllDead(Ends(Cat(x, y), s, c'), dead)
    {
      CatDeadAt(x, y, s, c, c', dead);
    }
  }

  lemma CatDeadAt(x: Pat, y: Pat, s: string, c: int, c': int, dead: int -> bool)
    requires 0 <= c <= c' <= |s| && Later(x, s, c, DeadThrough(y, s, dead))
    ensures AllDead(Ends(Cat(x, y), s, c'), dead)
  {
    hide Ends, DeadThrough, AllDead, CatEnds, Later;
    EndsCat(x, y, s, c');
    LaterAt(x, s, c, c', DeadThrough(y, s, dead));
    forall o | o in Ends(x, s, c')
      ensures c' + MinLen(x) <= o.end <= |s|
    {
      EndsBound(x, s, c', o);
    }
    CatEndsDead(y, s, Ends(x, s, c'), c' + MinLen(x), dead);
  }

  lemma LaterAt(p: Pat, s: string, c: int, c': int, dead: int -> bool)
    requires 0 <= c <= c' <= |s| && Later(p, s, c, dead)
    ensures AllDead(Ends(p, s, c'), dead)
  {
  }

  lemma ResidualCat(G: Ctx, y: Pat, r: int, dead: int -> bool)
    requires Residual(G, r, dead)
    ensures Residual(G, MinLen(y) + r, DeadThrough(y, G.subj, dead))
  {
    if !G.full {
      hide Ends;
      forall e | e + MinLen(y) + r > |G.subj| && 0 <= e <= |G.subj|
        ensures AllDead(Ends(y, G.subj, e), dead)
      {
        forall i | 0 <= i < |Ends(y, G.subj, e)|
          ensures dead(Ends(y, G.subj, e)[i].end)
        {
          EndsBound(y, G.subj, e, Ends(y, G.subj, e)[i]);
        }
      }
    }
  }

  lemma EndsBound(p: Pat, s: string, c: int, o: Out)
    requires 0 <= c <= |s| && o in Ends(p, s, c)
    ensures c + MinLen(p) <= o.end <= |s|
  {
  }

  ghost function CatFrame(y: Pat, s: string, x: Pat, m: int, X: Frame): Frame
  {
    var dead := DeadThrough(y, s, X.dead);
    X.(k := m, dead := dead, mute := Later(x, s, X.c, dead))
  }

  lemma CatParts(G: Ctx, x: Pat, y: Pat, o: int, X: Frame, r: int)
    requires Stands(G, Cat(x, y), o, X, r)
    ensures var m := o + Size(x);
            && m > 0 && 0 <= X.c <= |G.subj|
            && Stands(G, x, o, CatFrame(y, G.subj, x, m, X), MinLen(y) + r)
            && Next(G, y, m, X.k, r, X.dead)
    ensures Later(Cat(x, y), G.subj, X.c, X.dead) == X.mute
  {
    hide Cells, Has, Residual, Ends, Later, Size, MinLen, Node, ArgNode, Own, WellFormed, Productive, Consumes;
    var m := o + Size(x);
    WellFormedCases(x, y, "");
    ProductiveCases(x, y, "", G.subj);
    CellsCat(x, y, o, X.k, X.a, r);
    HasSplit(G.code, o, Cells(x, o, m, X.a, MinLen(y) + r), Cells(y, m, X.k, 0, r));
    ResidualCat(G, y, r, X.dead);
  }

  /** The fragment for y sits at m as a continuation. */
  ghost predicate Next(G: Ctx, y: Pat, m: int, k: int, r: int, dead: int -> bool) {
    && 0 <= m && 0 <= r && Has(G.code, m, Cells(y, m, k, 0, r))
    && WellFormed(y) && (G.full ==> Productive(y, G.subj)) && Residual(G, r, dead)
  }

  lemma {:induction false} CatCorrect(G: Ctx, x: Pat, y: Pat, o: int, X: Frame, r: int)
    requires Stands(G, Cat(x, y), o, X, r)
    ensures Offers(G, Entered(X, o), X, Ends(Cat(x, y), G.subj, X.c))
    decreases Cat(x, y), 0, 0
  {
    hide Stands, Offers, Ends, Later, Size, Next, DeadThrough;
    var m, s, c := o + Size(x), G.subj, X.c;
    CatParts(G, x, y, o, X, r);
    var X1 := CatFrame(y, s, x, m, X);
    Correct(G, x, o, X1, MinLen(y) + r);
    if X1.mute {
      LaterCat(x, y, s, c, X.dead);
    }
    forall out | out in Ends(x, s, c)
      ensures c + MinLen(x) <= out.end <= |s|
    {
      EndsBound(x, s, c, out);
    }
    CatRest(G, y, m, X, X1, r, Entered(X, o), Ends(x, s, c), c + MinLen(x));
    EndsCat(x, y, s, c);
  }

  /** Each end that x offers is continued by y. */
  lemma {:induction false} CatRest(G: Ctx, y: Pat, m: int, X: Frame, X1: Frame, r: int, st: State, outs: seq<Out>, lo: int)
    requires m > 0 && Next(G, y, m, X.k, r, X.dead)
    requires X1 == X.(k := m, dead := DeadThrough(y, G.subj, X.dead), mute := X1.mute) && (X1.mute ==> X.mute)
    requires forall o :: o in outs ==> 0 <= lo <= o.end <= |G.subj|
    requires Offers(G, st, X1, outs)
    ensures Offers(G, st, X, CatEnds(y, G.subj, outs, lo))
    decreases y, 3, |outs|
  {
    hide Next, Ends, Later, DeadThrough;
    var s := G.subj;
    if outs == [] {
      var b :| MayFail(G, X1, b) && Reaches(G, st, Failed(X1, b));
      OfferNone(G, st, X, b);
    } else {
      var first, rest := outs[0], outs[1..];
      var ends, more := Ends(y, s, first.end), CatEnds(y, s, rest, lo);
      assert first in outs;
      if !G.full && X1.dead(first.end) && Offers(G, st, X1, rest) {
        CatRest(G, y, m, X, X1, r, st, rest, lo);
        DeadThroughIs(y, s, X.dead, first.end);
        PrefixedDead(first.caps, ends, X.dead);
        SkipAll(G, st, X, Prefixed(first.caps, ends), more);
      } else {
        var h :| OffersFirst(G, st, X1, outs, h);
        CatFirst(G, y, m, X, X1, r, outs, lo, h);
        OffersFrom(G, st, Goal(X1, first, h), X, Prefixed(first.caps, ends) + more);
      }
    }
  }

  lemma DeadThroughIs(y: Pat, s: string, dead: int -> bool, e: int)
    requires 0 <= e <= |s|
    ensures DeadThrough(y, s, dead)(e) == AllDead(Ends(y, s, e), dead)
  {
  }

  lemma DeadThroughFrom(y: Pat, s: string, dead: int -> bool, e: int)
    requires 0 <= e <= |s|
    ensures Later(y, s, e, dead) ==> DeadFrom(DeadThrough(y, s, dead), e)
  {
    hide Ends;
  }

  lemma {:induction false} CatFirst(G: Ctx, y: Pat, m: int, X: Frame, X1: Frame, r: int, outs: seq<Out>, lo: int, h: seq<Entry>)
    requires m > 0 && Next(G, y, m, X.k, r, X.dead) && outs != []
    requires X1 == X.(k := m, dead := DeadThrough(y, G.subj, X.dead), mute := X1.mute) && (X1.mute ==> X.mute)
    requires forall o :: o in outs ==> 0 <= lo <= o.end <= |G.subj|
    requires forall b :: Fair(G, X1.dead, outs[0].end, b) ==> Offers(G, Retried(X1, outs[0], h, b), X1, outs[1..])
    ensures outs[0] in outs
    ensures Offers(G, Goal(X1, outs[0], h), X,
                   Prefixed(outs[0].caps, Ends(y, G.subj, outs[0].end)) + CatEnds(y, G.subj, outs[1..], lo))
    decreases y, 3, |outs|, 0
  {
    hide Ends, Later, DeadThrough, Offers, OffersFirst, CatEnds, Residual, Cells, Has;
    var s, first, rest := G.subj, outs[0], outs[1..];
    var e := first.end;
    var ends, more := Ends(y, s, e), CatEnds(y, s, rest, lo);
    var X2 := Frame(X.k, 0, e, true, X.hist + h, X.stk, X.names + first.caps, X.dead, Later(y, s, e, X.dead));
    assert first in outs;
    Correct(G, y, m, X2, r);
    forall b | MayFail(G, X2, b) && (G.full || AllDead(ends, X.dead))
      ensures Offers(G, Failed(X2, b), X, more)
    {
      DeadThroughIs(y, s, X.dead, e);
      DeadThroughFrom(y, s, X.dead, e);
      assert Fair(G, X1.dead, e, b);
      CatRest(G, y, m, X, X1, r, Retried(X1, first, h, b), rest, lo);
    }
    Then(G, Entered(X2, m), X2, ends, X, h, first.caps, more);
  }

  // -------------------------------------------------------------- the main lemma

  /** The code of every pattern offers the pattern's ends, in order. */
  lemma {:induction false} Correct(G: Ctx, p: Pat, o: int, X: Frame, r: int)
    requires Stands(G, p, o, X, r)
    ensures Offers(G, Entered(X, o), X, Ends(p, G.subj, X.c))
    decreases p, 2, 0
  {
    hide *;
    match p
    case Single(l) => LeafCorrect(G, l, o, X, r);
    case Arb => ArbCorrect(G, o, X, r);
    case Bal => BalCorrect(G, o, X, r);
    case Alt(x, y) => AltCorrect(G, x, y, o, X, r);
    case Cat(x, y) => CatCorrect(G, x, y, o, X, r);
    case Arbno(b) => ArbnoCorrect(G, b, o, X, r);
    case Capture(b, name) => CaptureCorrect(G, b, name, o, X, r);
  }

  // ---------------------------------------------------------------- captures

  lemma LaterCapture(b: Pat, name: string, s: string, c: int, dead: int -> bool)
    requires Later(b, s, c, dead)
    ensures Later(Capture(b, name), s, c, dead)
  {
    forall c' | 0 <= c <= c' <= |s|
      ensures AllDead(Ends(Capture(b, name), s, c'), dead)
    {
      hide Ends;
      EndsCapture(b, name, s, c');
      LaterAt(b, s, c, c', dead);
    }
  }

  /** The body of a capture runs above the start cursor and its trap. */
  ghost function CaptureFrame(b: Pat, s: string, z: int, X: Frame, r: int): Frame {
    Frame(z, 0, X.c, true, X.hist + [Own(X, r), Entry(Trap(FNME), X.c, 0, X.lenf)], X.stk + [X.c], X.names,
          X.dead, Later(b, s, X.c, X.dead))
  }

  lemma CaptureParts(G: Ctx, b: Pat, name: string, o: int, X: Frame, r: int)
    requires Stands(G, Capture(b, name), o, X, r)
    ensures var m, z := MinLen(b) + r, o + 3 + Size(b);
            && 0 <= o < z && 0 <= X.c <= |G.subj| && 0 <= r
            && Has(G.code, o, Node(NME, X.a, o + 3, m, m))
            && Has(G.code, z, ArgNode(ENME, 0, X.k, r, r, Str(name)))
            && Stands(G, b, o + 3, CaptureFrame(b, G.subj, z, X, m), r)
            && Residual(G, r, X.dead)
    ensures Later(Capture(b, name), G.subj, X.c, X.dead) == X.mute
  {
    hide Cells, Has, Residual, Ends, Later, Size, MinLen, Node, ArgNode, Own, WellFormed, Productive, Consumes;
    WellFormedCases(b, b, name);
    ProductiveCases(b, b, name, G.subj);
    var m, z := MinLen(b) + r, o + 3 + Size(b);
    var tail := ArgNode(ENME, 0, X.k, r, r, Str(name));
    CellsCapture(b, name, o, X.k, X.a, r);
    HasSplit(G.code, o, Node(NME, X.a, o + 3, m, m), Cells(b, o + 3, z, 0, r) + tail);
    HasSplit(G.code, o + 3, Cells(b, o + 3, z, 0, r), tail);
  }

  lemma {:induction false} CaptureCorrect(G: Ctx, b: Pat, name: string, o: int, X: Frame, r: int)
    requires Stands(G, Capture(b, name), o, X, r)
    ensures Offers(G, Entered(X, o), X, Ends(Capture(b, name), G.subj, X.c))
    decreases Capture(b, name), 0, 0
  {
    hide Stands, Offers, Ends, Later, Size, MinLen, Step, Has, Node, Residual, Captured, AllDead, ArgNode;
    var s, c, m, z := G.subj, X.c, MinLen(b) + r, o + 3 + Size(b);
    CaptureParts(G, b, name, o, X, r);
    var outs := Captured(name, c, Ends(b, s, c));
    EndsCapture(b, name, s, c);
    NodeStep(G, o, NME, X.a, o + 3, m, m, c, X.lenf, X.hist, X.stk, X.names);
    if !G.full && c + m > |s| {
      TooShort(G, Capture(b, name), X, r);
      LeafFails(G, X, m, true, outs);
    } else {
      var X1 := CaptureFrame(b, s, z, X, m);
      if X1.mute {
        LaterCapture(b, name, s, c, X.dead);
      }
      Correct(G, b, o + 3, X1, r);
      forall i | 0 <= i < |Ends(b, s, c)|
        ensures 0 <= Ends(b, s, c)[i].end <= |s|
      {
        EndsBound(b, s, c, Ends(b, s, c)[i]);
      }
      assert X.hist + [Own(X, m)] + [Entry(Trap(FNME), c, 0, X.lenf)] == X1.hist;
      CaptureRest(G, name, z, X, X1, m, r, Entered(X1, o + 3), Ends(b, s, c));
    }
    OffersStep(G, Entered(X, o), X, outs);
  }

  /** Each end that the body offers is recorded and passed on. */
  lemma {:induction false} CaptureRest(G: Ctx, name: string, z: int, X: Frame, X1: Frame, m: int, r: int, st: State, outs: seq<Out>)
    requires z > 0 && 0 <= r && Has(G.code, z, ArgNode(ENME, 0, X.k, r, r, Str(name))) && Residual(G, r, X.dead)
    requires X1 == Frame(z, 0, X.c, true, X.hist + [Own(X, m), Entry(Trap(FNME), X.c, 0, X.lenf)], X.stk + [X.c],
                         X.names, X.dead, X1.mute)
    requires X1.mute ==> X.mute
    requires forall i :: 0 <= i < |outs| ==> 0 <= outs[i].end <= |G.subj|
    requires Offers(G, st, X1, outs)
    ensures Offers(G, st, X, Captured(name, X.c, outs))
    decreases |outs|
  {
    hide Has, ArgNode, Residual, Step, Reaches;
    if outs == [] {
      var b :| MayFail(G, X1, b) && Reaches(G, st, Failed(X1, b));
      CaptureFails(G, X, m, b);
      ReachesTrans(G, st, Failed(X1, b), Failed(X, b && X.lenf));
      OfferNone(G, st, X, b && X.lenf);
    } else {
      var first, rest := outs[0], outs[1..];
      var out, more := Out(first.end, first.caps + [Cap(name, X.c, first.end)]), Captured(name, X.c, rest);
      assert Captured(name, X.c, outs) == [out] + more;
      if !G.full && X1.dead(first.end) && Offers(G, st, X1, rest) {
        CaptureRest(G, name, z, X, X1, m, r, st, rest);
        assert ([out] + more)[1..] == more;
      } else {
        var h :| OffersFirst(G, st, X1, outs, h);
        forall b | Fair(G, X1.dead, first.end, b)
          ensures Offers(G, Retried(X1, first, h, b), X, more)
        {
          CaptureRest(G, name, z, X, X1, m, r, Retried(X1, first, h, b), rest);
        }
        CaptureFirst(G, name, z, X, X1, m, r, first, h, more);
        OffersFrom(G, st, Goal(X1, first, h), X, [out] + more);
      }
    }
  }

  /** When the body fails, the trap takes the start cursor off the stack. */
  lemma CaptureFails(G: Ctx, X: Frame, m: int, b: bool)
    ensures Reaches(G, Back(b, X.hist + [Own(X, m), Entry(Trap(FNME), X.c, 0, X.lenf)], X.stk + [X.c], X.names),
                    Failed(X, b && X.lenf))
  {
    hide Reaches, Failed, Own;
    var trap := Entry(Trap(FNME), X.c, 0, X.lenf);
    var h1 := X.hist + [Own(X, m)];
    assert X.hist + [Own(X, m), trap] == h1 + [trap];
    assert (h1 + [trap])[..|h1|] == h1 && (X.stk + [X.c])[..|X.stk|] == X.stk;
    PopOwn(G, X, m, b && X.lenf);
    ReachesStep(G, Back(b, h1 + [trap], X.stk + [X.c], X.names), Failed(X, b && X.lenf));
  }

  lemma PopZero(G: Ctx, b: bool, hist: seq<Entry>, e: Entry, stk: seq<int>, names: seq<Cap>)
    requires e.link == To(0)
    ensures Step(G, Back(b, hist + [e], stk, names)) == Back(b && e.lenf, hist, stk, names)
  {
    assert (hist + [e])[..|hist|] == hist;
  }

  lemma PopCapture(G: Ctx, b: bool, hist: seq<Entry>, e: Entry, stk: seq<int>, names: seq<Cap>, cap: Cap)
    requires e.link == Trap(DNME)
    ensures Step(G, Back(b, hist + [e], stk, names + [cap])) == Back(b && e.lenf, hist, stk + [e.v], names)
  {
    assert (hist + [e])[..|hist|] == hist && (names + [cap])[..|names|] == names;
  }

  /** ENME: the capture goes on the name list, with a trap that takes it off. */
  lemma CaptureFirst(G: Ctx, name: string, z: int, X: Frame, X1: Frame, m: int, r: int, first: Out, h: seq<Entry>, more: seq<Out>)
    requires z > 0 && 0 <= r && Has(G.code, z, ArgNode(ENME, 0, X.k, r, r, Str(name))) && Residual(G, r, X.dead)
    requires X1 == Frame(z, 0, X.c, true, X.hist + [Own(X, m), Entry(Trap(FNME), X.c, 0, X.lenf)], X.stk + [X.c],
                         X.names, X.dead, X1.mute)
    requires 0 <= first.end <= |G.subj|
    requires forall b :: Fair(G, X1.dead, first.end, b) ==> Offers(G, Retried(X1, first, h, b), X, more)
    ensures Offers(G, Goal(X1, first, h), X, [Out(first.end, first.caps + [Cap(name, X.c, first.end)])] + more)
  {
    hide Has, ArgNode, Offers, OffersFirst, Reaches, Step, Own;
    var e, cap := first.end, Cap(name, X.c, first.end);
    var st, out := Goal(X1, first, h), Out(e, first.caps + [cap]);
    var h1, names1 := X1.hist + h, X.names + first.caps;
    var own, trap := Entry(To(0), e, r, true), Entry(Trap(DNME), e, X.c, true);
    assert st == Scan(z, e, true, h1, X1.stk, names1);
    ArgNodeStep(G, z, ENME, 0, X.k, r, r, Str(name), e, true, h1, X1.stk, names1);
    if !G.full && e + r > |G.subj| {
      PopZero(G, true, h1, own, X1.stk, names1);
      assert X.dead(e) && DeadFrom(X.dead, e);
      assert Fair(G, X1.dead, e, true);
      OffersStep(G, Back(true, h1 + [own], X1.stk, names1), X, more);
      SkipAll(G, Back(true, h1 + [own], X1.stk, names1), X, [out], more);
      OffersStep(G, st, X, [out] + more);
    } else {
      var h2 := [Own(X, m), Entry(Trap(FNME), X.c, 0, X.lenf)] + h + [own, trap];
      assert h1 + [own] + [trap] == X.hist + h2 && names1 + [cap] == X.names + out.caps;
      assert (X.stk + [X.c])[..|X.stk|] == X.stk;
      forall b | Fair(G, X.dead, e, b)
        ensures Offers(G, Retried(X, out, h2, b), X, more)
      {
        PopCapture(G, b, h1 + [own], trap, X.stk, names1, cap);
        PopZero(G, b, h1, own, X1.stk, names1);
        OffersStep(G, Back(b, h1 + [own], X1.stk, names1), X, more);
        OffersStep(G, Retried(X, out, h2, b), X, more);
      }
      ReachesSelf(G, Goal(X, out, h2));
      OfferOne(G, Goal(X, out, h2), X, out, h2, more);
      OffersStep(G, st, X, [out] + more);
    }
  }

  // ------------------------------------------------------------------- ARBNO

  /** What makes the body's continuation dead in a round that began at c: the
      body is not repeated after a round that matched null. */
  ghost function DeadRound(b: Pat, s: string, c: int, dead: int -> bool): int -> bool {
    e => 0 <= e <= |s| ==> if e == c then dead(c) else AllDead(Ends(Arbno(b), s, e), dead)
  }

  /** Every end that further rounds reach from c or later is dead. */
  ghost predicate LaterLoop(b: Pat, s: string, c: int, dead: int -> bool) {
    forall c' :: 0 <= c <= c' <= |s| ==> AllDead(LoopEnds(b, s, c'), dead)
  }

  lemma DeadRoundIs(b: Pat, s: string, c: int, dead: int -> bool, e: int)
    requires 0 <= c <= e <= |s|
    ensures DeadRound(b, s, c, dead)(e) <==> dead(e) && (e != c ==> AllDead(LoopEnds(b, s, e), dead))
  {
    EndsArbno(b, s, e);
    hide Ends, LoopEnds;
    if e != c {
      var ends := Ends(Arbno(b), s, e);
      assert ends[0].end == e && ends[1..] == LoopEnds(b, s, e);
      if AllDead(ends, dead) {
        forall i | 0 <= i < |LoopEnds(b, s, e)|
          ensures dead(LoopEnds(b, s, e)[i].end)
        {
          assert ends[i + 1] == LoopEnds(b, s, e)[i];
        }
      }
    }
  }

  /** A round's ends: its own, and those of the rounds after it. */
  lemma RoundEndsIs(b: Pat, s: string, c: int, first: Out)
    requires 0 <= c <= first.end <= |s|
    ensures var again := if first.end > c then LoopEnds(b, s, first.end) else [];
            RoundEnds(b, s, c, first) == [Out(first.end, first.caps)] + Prefixed(first.caps, again)
  {
    hide LoopEnds;
    assert first.caps + [] == first.caps;
  }

  lemma RoundEndsDead(b: Pat, s: string, c: int, c0: int, first: Out, dead: int -> bool)
    requires 0 <= c0 <= c <= first.end <= |s| && DeadRound(b, s, c0, dead)(first.end)
    ensures AllDead(RoundEnds(b, s, c, first), dead)
  {
    DeadRoundIs(b, s, c0, dead, first.end);
    RoundEndsIs(b, s, c, first);
    hide LoopEnds, RoundEnds, DeadRound;
    if first.end > c {
      PrefixedDead(first.caps, LoopEnds(b, s, first.end), dead);
    }
  }

  lemma {:induction false} MoreEndsDead(b: Pat, s: string, c: int, c0: int, outs: seq<Out>, dead: int -> bool)
    requires 0 <= c0 <= c <= |s| && forall o :: o in outs ==> c <= o.end <= |s|
    requires AllDead(outs, DeadRound(b, s, c0, dead))
    ensures AllDead(MoreEnds(b, s, c, outs), dead)
    decreases |outs|
  {
    hide DeadRound, RoundEnds;
    if outs != [] {
      assert outs[0] in outs;
      RoundEndsDead(b, s, c, c0, outs[0], dead);
      assert AllDead(outs[1..], DeadRound(b, s, c0, dead));
      MoreEndsDead(b, s, c, c0, outs[1..], dead);
    }
  }

  lemma LaterRounds(b: Pat, s: string, c: int, dead: int -> bool)
    requires Later(b, s, c, DeadRound(b, s, c, dead))
    ensures LaterLoop(b, s, c, dead)
  {
    hide LoopEnds, Ends, DeadRound, AllDead;
    forall c' | 0 <= c <= c' <= |s|
      ensures AllDead(LoopEnds(b, s, c'), dead)
    {
      EndsArbno(b, s, c');
      LaterAt(b, s, c, c', DeadRound(b, s, c, dead));
      forall o | o in Ends(b, s, c')
        ensures c' <= o.end <= |s|
      {
        EndsBound(b, s, c', o);
      }
      MoreEndsDead(b, s, c', c, Ends(b, s, c'), dead);
    }
  }

  lemma DeadRoundFrom(b: Pat, s: string, c: int, dead: int -> bool, e: int)
    requires 0 <= c <= e <= |s| && DeadFrom(dead, e)
    ensures DeadFrom(DeadRound(b, s, c, dead), e) && LaterLoop(b, s, e, dead)
  {
    forall e' | e <= e' <= |s|
      ensures AllDead(LoopEnds(b, s, e'), dead) && DeadRound(b, s, c, dead)(e')
    {
      forall i | 0 <= i < |LoopEnds(b, s, e')|
        ensures dead(LoopEnds(b, s, e')[i].end)
      {
        assert LoopEnds(b, s, e')[i] in LoopEnds(b, s, e');
      }
      DeadRoundIs(b, s, c, dead, e');
    }
  }

  lemma ResidualRound(G: Ctx, b: Pat, c: int, r: int, dead: int -> bool)
    requires Residual(G, r, dead) && 0 <= c && 0 <= r && (G.full || c + r <= |G.subj|)
    ensures Residual(G, r, DeadRound(b, G.subj, c, dead))
  {
    if !G.full {
      forall e | e + r > |G.subj| && 0 <= e <= |G.subj|
        ensures DeadRound(b, G.subj, c, dead)(e)
      {
        assert DeadFrom(dead, e);
        DeadRoundFrom(b, G.subj, c, dead, e);
      }
    }
  }

  /** The nodes of ARBNO(b), at o and after it, and of b inside. */
  ghost predicate Loop(G: Ctx, b: Pat, o: int, k: int, r: int, dead: int -> bool) {
    var z := o + 12 + Size(b);
    && 0 <= o && 0 <= r
    && Has(G.code, o + 3, Node(SCOK, o + 6, k, r, r))
    && Has(G.code, o + 6, Node(ARBN, o + 9, o + 12, r, r))
    && Has(G.code, o + 9, Node(ARBF, 0, k, r, r))
    && Has(G.code, o + 12, Cells(b, o + 12, z, 0, r))
    && Has(G.code, z, Node(EARB, 0, z + 3, r, r))
    && Has(G.code, z + 3, Node(SCOK, z + 6, k, r, r))
    && Has(G.code, z + 6, Node(ONAR, z + 9, o + 6, r, r))
    && Has(G.code, z + 9, Node(ONRF, 0, o + 6, r, r))
    && WellFormed(b) && Residual(G, r, dead)
  }

  lemma FourParts(code: seq<Cell>, o: int, a: seq<Cell>, b: seq<Cell>, c: seq<Cell>, d: seq<Cell>)
    requires |a| == |b| == |c| == 3 && Has(code, o, a + (b + (c + d)))
    ensures Has(code, o, a) && Has(code, o + 3, b) && Has(code, o + 6, c) && Has(code, o + 9, d)
  {
    hide Has;
    HasSplit(code, o, a, b + (c + d));
    HasSplit(code, o + 3, b, c + d);
    HasSplit(code, o + 6, c, d);
  }

  lemma LoopParts(G: Ctx, b: Pat, o: int, X: Frame, r: int)
    requires Stands(G, Arbno(b), o, X, r)
    ensures Loop(G, b, o, X.k, r, X.dead) && Fruitful(G, b)
    ensures Has(G.code, o, Node(SCOK, X.a, o + 3, r, r))
    ensures 0 <= X.c <= |G.subj| && X.mute == Later(Arbno(b), G.subj, X.c, X.dead)
  {
    hide Cells, Has, Residual, Ends, Later, WellFormed, Productive, Consumes, Node, Loop;
    ProductiveCases(b, b, "", G.subj);
    LoopCells(G, b, o, X.k, X.a, r, X.dead);
  }

  lemma LoopCells(G: Ctx, b: Pat, o: int, k: int, a: int, r: int, dead: int -> bool)
    requires 0 <= o && 0 <= r && Has(G.code, o, Cells(Arbno(b), o, k, a, r)) && WellFormed(Arbno(b)) && Residual(G, r, dead)
    ensures Loop(G, b, o, k, r, dead) && Has(G.code, o, Node(SCOK, a, o + 3, r, r))
  {
    hide Cells, Has, Residual, Ends, Size, MinLen, Node, ArgNode, WellFormed;
    WellFormedCases(b, b, "");
    var z := o + 12 + Size(b);
    var tail := ArbnoTail(z, o + 6, k, r);
    CellsArbno(b, o, k, a, r);
    HasSplit(G.code, o, ArbnoHead(o, k, a, r), Cells(b, o + 12, z, 0, r) + tail);
    HasSplit(G.code, o + 12, Cells(b, o + 12, z, 0, r), tail);
    FourParts(G.code, o, Node(SCOK, a, o + 3, r, r), Node(SCOK, o + 6, k, r, r),
              Node(ARBN, o + 9, o + 12, r, r), Node(ARBF, 0, k, r, r));
    FourParts(G.code, z, Node(EARB, 0, z + 3, r, r), Node(SCOK, z + 6, k, r, r),
              Node(ONAR, z + 9, o + 6, r, r), Node(ONRF, 0, o + 6, r, r));
  }

  /** The body of a loop in FULLSCAN. */
  ghost predicate Fruitful(G: Ctx, b: Pat) {
    G.full ==> Productive(b, G.subj) && Consumes(b, G.subj)
  }

  /** The surroundings of a loop that stands at the node that starts a round. */
  ghost predicate RoundFrame(G: Ctx, b: Pat, Y: Frame) {
    Y.a == 0 && 0 <= Y.c <= |G.subj| && Y.mute == LaterLoop(b, G.subj, Y.c, Y.dead) && Fruitful(G, b)
  }

  /** The surroundings of the body in that round. */
  ghost function BodyFrame(b: Pat, s: string, o: int, Y: Frame, r: int): Frame {
    var dead := DeadRound(b, s, Y.c, Y.dead);
    Frame(o + 12 + Size(b), 0, Y.c, true, Y.hist + [Entry(To(o + 9), Y.c, r, Y.lenf)], Y.stk + [Y.c], Y.names,
          dead, Later(b, s, Y.c, dead))
  }

  lemma {:induction false} ArbnoCorrect(G: Ctx, b: Pat, o: int, X: Frame, r: int)
    requires Stands(G, Arbno(b), o, X, r)
    ensures Offers(G, Entered(X, o), X, Ends(Arbno(b), G.subj, X.c))
    decreases Arbno(b), 0, 0, 0
  {
    hide Stands, Offers, Ends, LoopEnds, Later, LaterLoop, Step, Loop, Node, Has, Residual, OffersFirst;
    var s, c := G.subj, X.c;
    LoopParts(G, b, o, X, r);
    var h1 := X.hist + [Own(X, r)];
    var st := Scan(o + 3, c, true, h1, X.stk, X.names);
    var outs, more := Ends(Arbno(b), s, c), LoopEnds(b, s, c);
    EndsArbno(b, s, c);
    LoopNodes(G, b, o, X.k, r, X.dead);
    NodeStep(G, o, SCOK, X.a, o + 3, r, r, c, X.lenf, X.hist, X.stk, X.names);
    if !G.full && c + r > |s| {
      TooShort(G, Arbno(b), X, r);
      LeafFails(G, X, r, true, outs);
    } else {
      var e3 := Entry(To(o + 6), c, r, true);
      var out, h := Out(c, []), [Own(X, r), e3];
      NodeStep(G, o + 3, SCOK, o + 6, X.k, r, r, c, true, h1, X.stk, X.names);
      assert h1 + [e3] == X.hist + h && X.names + [] == X.names;
      forall f | Fair(G, X.dead, c, f)
        ensures Offers(G, Retried(X, out, h, f), X, more)
      {
        PopTo(G, f, h1, e3, X.stk, X.names);
        ArbnoRounds(G, b, o, X, r, f);
        OffersStep(G, Retried(X, out, h, f), X, more);
      }
      ReachesSelf(G, Goal(X, out, h));
      OfferOne(G, Goal(X, out, h), X, out, h, more);
      OffersStep(G, st, X, outs);
    }
    OffersStep(G, Entered(X, o), X, outs);
  }

  lemma LoopNodes(G: Ctx, b: Pat, o: int, k: int, r: int, dead: int -> bool)
    requires Loop(G, b, o, k, r, dead)
    ensures var z := o + 12 + Size(b);
            && 0 <= o < z && 0 <= r
            && Has(G.code, o + 3, Node(SCOK, o + 6, k, r, r))
            && Has(G.code, o + 6, Node(ARBN, o + 9, o + 12, r, r))
            && Has(G.code, o + 9, Node(ARBF, 0, k, r, r))
            && Has(G.code, z, Node(EARB, 0, z + 3, r, r))
            && Has(G.code, z + 3, Node(SCOK, z + 6, k, r, r))
            && Has(G.code, z + 6, Node(ONAR, z + 9, o + 6, r, r))
            && Has(G.code, z + 9, Node(ONRF, 0, o + 6, r, r))
            && Residual(G, r, dead)
  {
    hide Has, Node, Cells, Residual, Size, Consumes, Productive, WellFormed;
  }

  /** After the null match, the rounds; then ARBNO as a whole has failed. */
  lemma {:induction false} ArbnoRounds(G: Ctx, b: Pat, o: int, X: Frame, r: int, f: bool)
    requires Stands(G, Arbno(b), o, X, r) && Loop(G, b, o, X.k, r, X.dead) && Fruitful(G, b)
    requires (G.full || X.c + r <= |G.subj|) && Fair(G, X.dead, X.c, f)
    ensures Offers(G, Scan(o + 6, X.c, f, X.hist + [Own(X, r)], X.stk, X.names), X, LoopEnds(b, G.subj, X.c))
    decreases b, 4, |G.subj| + 1, 0
  {
    hide Offers, Ends, LoopEnds, Later, LaterLoop, Loop, Residual, Has, Cells, Node;
    var s, c := G.subj, X.c;
    var Y := Frame(X.k, 0, c, f, X.hist + [Own(X, r)], X.stk, X.names, X.dead, LaterLoop(b, s, c, X.dead));
    RoundsFrom(G, b, o, Y, r);
    forall f2 | MayFail(G, Y, f2)
      ensures Offers(G, Failed(Y, f2), X, [])
    {
      if !G.full && f2 {
        LaterArbno(b, s, c, X.dead);
      }
      PopOwn(G, X, r, f2);
      OfferNone(G, Failed(Y, f2), X, f2 && X.lenf);
    }
    assert Y.names == X.names + [];
    Then(G, Entered(Y, o + 6), Y, LoopEnds(b, s, c), X, [Own(X, r)], [], []);
    PrefixedNothing(LoopEnds(b, s, c));
    assert LoopEnds(b, s, c) + [] == LoopEnds(b, s, c);
  }

  lemma LaterArbno(b: Pat, s: string, c: int, dead: int -> bool)
    requires 0 <= c <= |s| && DeadFrom(dead, c)
    ensures Later(Arbno(b), s, c, dead)
  {
    hide Ends;
    forall c' | c <= c' <= |s|
      ensures AllDead(Ends(Arbno(b), s, c'), dead)
    {
      forall i | 0 <= i < |Ends(Arbno(b), s, c')|
        ensures dead(Ends(Arbno(b), s, c')[i].end)
      {
        EndsBound(Arbno(b), s, c', Ends(Arbno(b), s, c')[i]);
      }
    }
  }

  /** A round starts at Y.c: push the cursor, run the body, then all that follows. */
  lemma {:induction false} RoundsFrom(G: Ctx, b: Pat, o: int, Y: Frame, r: int)
    requires Loop(G, b, o, Y.k, r, Y.dead) && RoundFrame(G, b, Y) && (G.full || Y.c + r <= |G.subj|)
    ensures Offers(G, Entered(Y, o + 6), Y, LoopEnds(b, G.subj, Y.c))
    decreases b, 3, |G.subj| - Y.c, 1, 0
  {
    hide Offers, Ends, LoopEnds, MoreEnds, Later, LaterLoop, Loop, Residual, Has, Cells, Node, Step, DeadRound;
    var s, c := G.subj, Y.c;
    var X1 := BodyFrame(b, s, o, Y, r);
    LoopNodes(G, b, o, Y.k, r, Y.dead);
    NodeStep(G, o + 6, ARBN, o + 9, o + 12, r, r, c, Y.lenf, Y.hist, Y.stk, Y.names);
    BodyPlaced(G, b, o, Y, r);
    Correct(G, b, o + 12, X1, r);
    forall out | out in Ends(b, s, c)
      ensures c <= out.end <= |s| && (G.full ==> c < out.end)
    {
      EndsBound(b, s, c, out);
      if G.full {
        LoopConsumes(G, b, c, out);
      }
    }
    EndsArbno(b, s, c);
    MoreRounds(G, b, o, Y, r, Entered(X1, o + 12), Ends(b, s, c));
    OffersStep(G, Entered(Y, o + 6), Y, LoopEnds(b, s, c));
  }

  lemma LoopConsumes(G: Ctx, b: Pat, c: int, out: Out)
    requires Fruitful(G, b) && G.full && 0 <= c <= |G.subj| && out in Ends(b, G.subj, c)
    ensures c < out.end
  {
    hide Ends, Productive;
  }

  lemma BodyPlaced(G: Ctx, b: Pat, o: int, Y: Frame, r: int)
    requires Loop(G, b, o, Y.k, r, Y.dead) && RoundFrame(G, b, Y) && (G.full || Y.c + r <= |G.subj|)
    ensures Stands(G, b, o + 12, BodyFrame(b, G.subj, o, Y, r), r)
  {
    hide Has, Node, Cells, Ends, Later, LaterLoop, DeadRound, Residual;
    ResidualRound(G, b, Y.c, r, Y.dead);
  }

  /** Each end that the body offers is passed on, and the rounds after it. */
  lemma {:induction false} MoreRounds(G: Ctx, b: Pat, o: int, Y: Frame, r: int, st: State, outs: seq<Out>)
    requires Loop(G, b, o, Y.k, r, Y.dead) && RoundFrame(G, b, Y) && (G.full || Y.c + r <= |G.subj|)
    requires forall out :: out in outs ==> Y.c <= out.end <= |G.subj| && (G.full ==> Y.c < out.end)
    requires Offers(G, st, BodyFrame(b, G.subj, o, Y, r), outs)
    ensures Offers(G, st, Y, MoreEnds(b, G.subj, Y.c, outs))
    decreases b, 3, |G.subj| - Y.c, 0, |outs|, 2, 0
  {
    hide Ends, LoopEnds, Later, LaterLoop, Loop, Residual, Step, DeadRound, Reaches;
    var s, c, X1 := G.subj, Y.c, BodyFrame(b, G.subj, o, Y, r);
    if outs == [] {
      LastRound(G, b, o, Y, r, st);
    } else {
      var first, rest := outs[0], outs[1..];
      assert first in outs;
      if !G.full && X1.dead(first.end) && Offers(G, st, X1, rest) {
        MoreRounds(G, b, o, Y, r, st, rest);
        RoundEndsDead(b, s, c, c, first, Y.dead);
        SkipAll(G, st, Y, RoundEnds(b, s, c, first), MoreEnds(b, s, c, rest));
      } else {
        var h :| OffersFirst(G, st, X1, outs, h);
        FirstRound(G, b, o, Y, r, outs, h);
        OffersFrom(G, st, Goal(X1, first, h), Y, RoundEnds(b, s, c, first) + MoreEnds(b, s, c, rest));
      }
    }
  }

  lemma LastRound(G: Ctx, b: Pat, o: int, Y: Frame, r: int, st: State)
    requires Loop(G, b, o, Y.k, r, Y.dead) && RoundFrame(G, b, Y) && (G.full || Y.c + r <= |G.subj|)
    requires Offers(G, st, BodyFrame(b, G.subj, o, Y, r), [])
    ensures Offers(G, st, Y, [])
  {
    hide Ends, LoopEnds, Later, LaterLoop, Loop, Residual, Step, DeadRound, Reaches;
    var X1 := BodyFrame(b, G.subj, o, Y, r);
    var f :| MayFail(G, X1, f) && Reaches(G, st, Failed(X1, f));
    if X1.mute {
      LaterRounds(b, G.subj, Y.c, Y.dead);
    }
    RoundFails(G, b, o, Y, r, f);
    ReachesTrans(G, st, Failed(X1, f), Failed(Y, f && Y.lenf));
    OfferNone(G, st, Y, f && Y.lenf);
  }

  /** The body has failed: the start cursor comes off the stack. */
  lemma RoundFails(G: Ctx, b: Pat, o: int, Y: Frame, r: int, f: bool)
    requires Loop(G, b, o, Y.k, r, Y.dead) && Y.a == 0 && 0 <= Y.c <= |G.subj| && (G.full || Y.c + r <= |G.subj|)
    ensures Reaches(G, Failed(BodyFrame(b, G.subj, o, Y, r), f), Failed(Y, f && Y.lenf))
  {
    hide Loop, Has, Node, LaterLoop, Reaches, Step, DeadRound, Later, Residual;
    var c, f2 := Y.c, f && Y.lenf;
    var e6, own := Entry(To(o + 9), c, r, Y.lenf), Entry(To(0), c, r, f2);
    var st := Scan(o + 9, c, f2, Y.hist, Y.stk + [c], Y.names);
    LoopNodes(G, b, o, Y.k, r, Y.dead);
    PopTo(G, f, Y.hist, e6, Y.stk + [c], Y.names);
    NodeStep(G, o + 9, ARBF, 0, Y.k, r, r, c, f2, Y.hist, Y.stk + [c], Y.names);
    assert (Y.stk + [c])[..|Y.stk|] == Y.stk;
    PopZero(G, f2, Y.hist, own, Y.stk, Y.names);
    ReachesSelf(G, Failed(Y, f2));
    ReachesStep(G, Back(f2, Y.hist + [own], Y.stk, Y.names), Failed(Y, f2));
    ReachesStep(G, st, Failed(Y, f2));
    ReachesStep(G, Back(f, Y.hist + [e6], Y.stk + [c], Y.names), Failed(Y, f2));
  }

  /** The body offers its first end and, when that fails, the others. */
  ghost predicate BodyOffered(G: Ctx, b: Pat, o: int, Y: Frame, r: int, outs: seq<Out>, h: seq<Entry>) {
    && outs != []
    && (forall out :: out in outs ==> Y.c <= out.end <= |G.subj| && (G.full ==> Y.c < out.end))
    && var X1 := BodyFrame(b, G.subj, o, Y, r);
       forall f :: Fair(G, X1.dead, outs[0].end, f) ==> Offers(G, Retried(X1, outs[0], h, f), X1, outs[1..])
  }

  /** The history after EARB has parked the start cursor above the body's own. */
  ghost function Parked(o: int, Y: Frame, r: int, h: seq<Entry>, e: int): seq<Entry> {
    Y.hist + [Entry(To(o + 9), Y.c, r, Y.lenf)] + h + [Entry(To(Y.c), e, 0, false)]
  }

  /** The remaining ends of the body, once the rounds after the first are used
      up and the stack is as the body left it. */
  lemma {:induction false} NextEnds(G: Ctx, b: Pat, o: int, Y: Frame, r: int, outs: seq<Out>, h: seq<Entry>, f: bool)
    requires Loop(G, b, o, Y.k, r, Y.dead) && RoundFrame(G, b, Y) && (G.full || Y.c + r <= |G.subj|)
    requires BodyOffered(G, b, o, Y, r, outs, h) && outs[0] in outs
    requires Fair(G, Y.dead, outs[0].end, f)
    requires G.full || outs[0].end == Y.c || AllDead(LoopEnds(b, G.subj, outs[0].end), Y.dead)
    ensures Offers(G, Retried(BodyFrame(b, G.subj, o, Y, r), outs[0], h, f), Y, MoreEnds(b, G.subj, Y.c, outs[1..]))
    decreases b, 3, |G.subj| - Y.c, 0, |outs|, 0, 0
  {
    hide Ends, LoopEnds, MoreEnds, Later, LaterLoop, Loop, Residual, Step, DeadRound, Reaches, Offers;
    var X1, e := BodyFrame(b, G.subj, o, Y, r), outs[0].end;
    DeadRoundIs(b, G.subj, Y.c, Y.dead, e);
    if !G.full && f {
      DeadRoundFrom(b, G.subj, Y.c, Y.dead, e);
    }
    assert Fair(G, X1.dead, e, f);
    MoreRounds(G, b, o, Y, r, Retried(X1, outs[0], h, f), outs[1..]);
  }

  /** EARB: unless the subject is too short to go on, the start cursor comes
      off the stack and is parked. */
  lemma EarbStep(G: Ctx, b: Pat, o: int, Y: Frame, r: int, first: Out, h: seq<Entry>)
    requires Loop(G, b, o, Y.k, r, Y.dead) && 0 <= first.end <= |G.subj|
    ensures var e, X1 := first.end, BodyFrame(b, G.subj, o, Y, r);
            Step(G, Goal(X1, first, h))
            == if !G.full && e + r > |G.subj|
               then Back(true, X1.hist + h + [Entry(To(0), e, r, true)], X1.stk, Y.names + first.caps)
               else Scan(o + 15 + Size(b), e, true, Parked(o, Y, r, h, e), Y.stk, Y.names + first.caps)
  {
    hide Loop, Step, DeadRound, Later, Node, Has, Residual;
    var z, e, X1 := o + 12 + Size(b), first.end, BodyFrame(b, G.subj, o, Y, r);
    var hB := X1.hist + h;
    LoopNodes(G, b, o, Y.k, r, Y.dead);
    NodeStep(G, z, EARB, 0, z + 3, r, r, e, true, hB, X1.stk, Y.names + first.caps);
    assert (Y.stk + [Y.c])[..|Y.stk|] == Y.stk;
    assert (hB + [Entry(To(0), e, r, true)])[|hB| := Entry(To(Y.c), e, 0, false)] == Parked(o, Y, r, h, e);
  }

  /** The subject is too short to go on from the body's end. */
  lemma {:induction false} RoundTooLong(G: Ctx, b: Pat, o: int, Y: Frame, r: int, outs: seq<Out>, h: seq<Entry>)
    requires Loop(G, b, o, Y.k, r, Y.dead) && RoundFrame(G, b, Y) && (G.full || Y.c + r <= |G.subj|)
    requires BodyOffered(G, b, o, Y, r, outs, h) && outs[0] in outs && !G.full && outs[0].end + r > |G.subj|
    ensures var e, X1 := outs[0].end, BodyFrame(b, G.subj, o, Y, r);
            Offers(G, Back(true, X1.hist + h + [Entry(To(0), e, r, true)], X1.stk, Y.names + outs[0].caps), Y,
                   RoundEnds(b, G.subj, Y.c, outs[0]) + MoreEnds(b, G.subj, Y.c, outs[1..]))
    decreases b, 3, |G.subj| - Y.c, 0, |outs|, 0, 1
  {
    hide RoundEnds, MoreEnds, LoopEnds, Later, LaterLoop, Loop, Residual, Step, DeadRound, Reaches, Offers, Node, Has;
    var s, c, X1 := G.subj, Y.c, BodyFrame(b, G.subj, o, Y, r);
    var e, caps, more := outs[0].end, outs[0].caps, MoreEnds(b, s, c, outs[1..]);
    var hB, names, own := X1.hist + h, Y.names + caps, Entry(To(0), e, r, true);
    LoopNodes(G, b, o, Y.k, r, Y.dead);
    ResidualFrom(G, r, Y.dead, e);
    DeadRoundFrom(b, s, c, Y.dead, e);
    LaterLoopAt(b, s, e, Y.dead);
    PopZero(G, true, hB, own, X1.stk, names);
    NextEnds(G, b, o, Y, r, outs, h, true);
    OffersStep(G, Back(true, hB + [own], X1.stk, names), Y, more);
    RoundEndsDead(b, s, c, c, outs[0], Y.dead);
    SkipAll(G, Back(true, hB + [own], X1.stk, names), Y, RoundEnds(b, s, c, outs[0]), more);
  }

  /** The first of the body's ends: EARB takes the start cursor off the stack
      and parks it in its own history entry; what comes next is tried first,
      then more rounds, then ONRF puts the cursor back. */
  lemma {:induction false} FirstRound(G: Ctx, b: Pat, o: int, Y: Frame, r: int, outs: seq<Out>, h: seq<Entry>)
    requires Loop(G, b, o, Y.k, r, Y.dead) && RoundFrame(G, b, Y) && (G.full || Y.c + r <= |G.subj|)
    requires BodyOffered(G, b, o, Y, r, outs, h) && outs[0] in outs
    ensures Offers(G, Goal(BodyFrame(b, G.subj, o, Y, r), outs[0], h), Y,
                   RoundEnds(b, G.subj, Y.c, outs[0]) + MoreEnds(b, G.subj, Y.c, outs[1..]))
    decreases b, 3, |G.subj| - Y.c, 0, |outs|, 1, 0
  {
    hide RoundEnds, MoreEnds, Loop, Step, Offers, BodyFrame, Goal, Parked;
    var e := outs[0].end;
    EarbStep(G, b, o, Y, r, outs[0], h);
    if !G.full && e + r > |G.subj| {
      RoundTooLong(G, b, o, Y, r, outs, h);
    } else {
      Onwards(G, b, o, Y, r, outs, h);
    }
    OffersStep(G, Goal(BodyFrame(b, G.subj, o, Y, r), outs[0], h), Y,
               RoundEnds(b, G.subj, Y.c, outs[0]) + MoreEnds(b, G.subj, Y.c, outs[1..]));
  }

  lemma ResidualFrom(G: Ctx, r: int, dead: int -> bool, e: int)
    requires Residual(G, r, dead) && !G.full && e + r > |G.subj|
    ensures DeadFrom(dead, e)
  {
  }

  lemma LaterLoopAt(b: Pat, s: string, c: int, dead: int -> bool)
    requires LaterLoop(b, s, c, dead) && 0 <= c <= |s|
    ensures AllDead(LoopEnds(b, s, c), dead)
  {
  }

  /** After EARB: what follows ARBNO, and behind it the further rounds. */
  lemma {:induction false} Onwards(G: Ctx, b: Pat, o: int, Y: Frame, r: int, outs: seq<Out>, h: seq<Entry>)
    requires Loop(G, b, o, Y.k, r, Y.dead) && RoundFrame(G, b, Y)
    requires BodyOffered(G, b, o, Y, r, outs, h) && outs[0] in outs && (G.full || outs[0].end + r <= |G.subj|)
    ensures var e := outs[0].end;
            Offers(G, Scan(o + 15 + Size(b), e, true, Parked(o, Y, r, h, e), Y.stk, Y.names + outs[0].caps), Y,
                   RoundEnds(b, G.subj, Y.c, outs[0]) + MoreEnds(b, G.subj, Y.c, outs[1..]))
    decreases b, 3, |G.subj| - Y.c, 0, |outs|, 0, 2
  {
    hide RoundEnds, LoopEnds, MoreEnds, LaterLoop, Loop, Residual, Step, Reaches, Offers, OffersFirst, Node, Has, BodyFrame, DeadRound;
    var s, z, e, caps := G.subj, o + 12 + Size(b), outs[0].end, outs[0].caps;
    var again := if e > Y.c then LoopEnds(b, s, e) else [];
    var more := Prefixed(caps, again) + MoreEnds(b, s, Y.c, outs[1..]);
    var h2, names, e3 := Parked(o, Y, r, h, e), Y.names + caps, Entry(To(z + 6), e, r, true);
    var st := Scan(z + 3, e, true, h2, Y.stk, names);
    var out, hx := Out(e, caps), [Entry(To(o + 9), Y.c, r, Y.lenf)] + h + [Entry(To(Y.c), e, 0, false), e3];
    LoopNodes(G, b, o, Y.k, r, Y.dead);
    NodeStep(G, z + 3, SCOK, z + 6, Y.k, r, r, e, true, h2, Y.stk, names);
    assert h2 + [e3] == Y.hist + hx;
    forall f | Fair(G, Y.dead, e, f)
      ensures Offers(G, Retried(Y, out, hx, f), Y, more)
    {
      PopTo(G, f, h2, e3, Y.stk, names);
      RoundAgain(G, b, o, Y, r, outs, h, f);
      OffersStep(G, Retried(Y, out, hx, f), Y, more);
    }
    ReachesSelf(G, Goal(Y, out, hx));
    OfferOne(G, Goal(Y, out, hx), Y, out, hx, more);
    RoundEndsIs(b, s, Y.c, outs[0]);
    Assoc3([out], Prefixed(caps, again), MoreEnds(b, s, Y.c, outs[1..]));
    OffersStep(G, st, Y, [out] + more);
  }

  lemma Assoc3(x: seq<Out>, y: seq<Out>, z: seq<Out>)
    ensures x + y + z == x + (y + z)
  {
  }

  /** What follows ARBNO has failed at e: another round from there, unless the
      last one matched null; then ONRF or ONAR restores the stack. */
  lemma {:induction false} RoundAgain(G: Ctx, b: Pat, o: int, Y: Frame, r: int, outs: seq<Out>, h: seq<Entry>, f: bool)
    requires Loop(G, b, o, Y.k, r, Y.dead) && RoundFrame(G, b, Y)
    requires BodyOffered(G, b, o, Y, r, outs, h) && outs[0] in outs && (G.full || outs[0].end + r <= |G.subj|)
    requires Fair(G, Y.dead, outs[0].end, f)
    ensures var e := outs[0].end;
            var again := if e > Y.c then LoopEnds(b, G.subj, e) else [];
            Offers(G, Scan(o + 18 + Size(b), e, f, Parked(o, Y, r, h, e), Y.stk, Y.names + outs[0].caps), Y,
                   Prefixed(outs[0].caps, again) + MoreEnds(b, G.subj, Y.c, outs[1..]))
    decreases b, 3, |G.subj| - Y.c, 0, |outs|, 0, 1
  {
    hide Ends, LoopEnds, MoreEnds, LaterLoop, Loop, Residual, Step, Reaches, Offers, OffersFirst, Node, Has;
    var s, z, e, caps := G.subj, o + 12 + Size(b), outs[0].end, outs[0].caps;
    var more := MoreEnds(b, s, Y.c, outs[1..]);
    var h2, names, en := Parked(o, Y, r, h, e), Y.names + caps, Entry(To(z + 9), e, r, f);
    var st := Scan(z + 6, e, f, h2, Y.stk, names);
    LoopNodes(G, b, o, Y.k, r, Y.dead);
    NodeStep(G, z + 6, ONAR, z + 9, o + 6, r, r, e, f, h2, Y.stk, names);
    if e == Y.c {
      assert (h2 + [en])[..|h2| - 1] == BodyFrame(b, s, o, Y, r).hist + h;
      NextEnds(G, b, o, Y, r, outs, h, f);
      assert Prefixed(caps, []) + more == more;
    } else {
      var hx := [Entry(To(o + 9), Y.c, r, Y.lenf)] + h + [Entry(To(Y.c), e, 0, false), en];
      var Y2 := Frame(Y.k, 0, e, true, h2 + [en], Y.stk, names, Y.dead, LaterLoop(b, s, e, Y.dead));
      assert h2 + [en] == Y.hist + hx;
      RoundsFrom(G, b, o, Y2, r);
      forall f2 | MayFail(G, Y2, f2) && (G.full || AllDead(LoopEnds(b, s, e), Y.dead))
        ensures Offers(G, Failed(Y2, f2), Y, more)
      {
        FairAnd(G, Y.dead, e, f, f2);
        NextEnds(G, b, o, Y, r, outs, h, f2 && f);
        RoundRestores(G, b, o, Y, r, outs[0], h, f, f2);
        OffersFrom(G, Failed(Y2, f2), Retried(BodyFrame(b, s, o, Y, r), outs[0], h, f2 && f), Y, more);
      }
      Then(G, Entered(Y2, o + 6), Y2, LoopEnds(b, s, e), Y, hx, caps, more);
    }
    OffersStep(G, st, Y, Prefixed(caps, if e > Y.c then LoopEnds(b, s, e) else []) + more);
  }

  lemma FairAnd(G: Ctx, dead: int -> bool, e: int, f: bool, f2: bool)
    requires Fair(G, dead, e, f)
    ensures Fair(G, dead, e, f2 && f)
  {
  }

  /** ONRF: the parked cursor returns to the stack and its entry is dropped. */
  lemma RoundRestores(G: Ctx, b: Pat, o: int, Y: Frame, r: int, first: Out, h: seq<Entry>, f: bool, f2: bool)
    requires Loop(G, b, o, Y.k, r, Y.dead) && 0 <= first.end <= |G.subj| && (G.full || first.end + r <= |G.subj|)
    ensures Reaches(G, Back(f2, Parked(o, Y, r, h, first.end) + [Entry(To(o + 21 + Size(b)), first.end, r, f)],
                            Y.stk, Y.names + first.caps),
                    Retried(BodyFrame(b, G.subj, o, Y, r), first, h, f2 && f))
  {
    hide Loop, Has, Node, Reaches, Step, DeadRound, Later, Residual;
    var z, e, f3 := o + 12 + Size(b), first.end, f2 && f;
    var h2, names, own := Parked(o, Y, r, h, e), Y.names + first.caps, Entry(To(0), e, r, f3);
    var en := Entry(To(z + 9), e, r, f);
    var goal := Retried(BodyFrame(b, G.subj, o, Y, r), first, h, f3);
    LoopNodes(G, b, o, Y.k, r, Y.dead);
    PopTo(G, f2, h2, en, Y.stk, names);
    NodeStep(G, z + 9, ONRF, 0, o + 6, r, r, e, f3, h2, Y.stk, names);
    assert (h2 + [own])[..|h2| - 1] == BodyFrame(b, G.subj, o, Y, r).hist + h;
    ReachesSelf(G, goal);
    ReachesStep(G, Scan(z + 9, e, f3, h2, Y.stk, names), goal);
    ReachesStep(G, Back(f2, h2 + [en], Y.stk, names), goal);
  }
}
