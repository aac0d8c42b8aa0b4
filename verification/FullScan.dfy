/** FULLSCAN, on every pattern: the walker tries what FullAlgebra lists, and
    stops just when that says so. */
module FullScan {
  import opened PatternAlgebra
  import opened FullAlgebra
  import opened PatternCode
  import opened PatternBuild
  import opened PatternMachine
  import opened PatternProof
  import opened PatternCorrect

  // ---------------------------------------------------------------- statements

  /** What comes after the fragment fails when it is reached by out. */
  ghost predicate Refused(G: Ctx, X: Frame, out: Out, h: seq<Entry>) {
    exists b :: Reaches(G, Goal(X, out, h), Retried(X, out, h, b))
  }

  /** It fails whenever it is reached with the cursor at e. */
  ghost predicate Refuses(G: Ctx, X: Frame, e: int) {
    forall out: Out, h :: out.end == e ==> Refused(G, X, out, h)
  }

  ghost predicate AllRefused(G: Ctx, X: Frame, outs: seq<Out>) {
    forall i :: 0 <= i < |outs| ==> Refuses(G, X, outs[i].end)
  }

  ghost predicate Meets(G: Ctx, st: State, X: Frame, out: Out) {
    exists h :: Reaches(G, st, Goal(X, out, h))
  }

  /** Each of outs is offered when those before it are refused. */
  ghost predicate Offered(G: Ctx, st: State, X: Frame, outs: seq<Out>) {
    forall i :: 0 <= i < |outs| && AllRefused(G, X, outs[..i]) ==> Meets(G, st, X, outs[i])
  }

  /** When all are refused and it hangs, n steps do not end it. */
  ghost predicate Part(G: Ctx, st: State, X: Frame, t: Tried, n: nat) {
    Offered(G, st, X, t.outs) && (t.hangs && AllRefused(G, X, t.outs) ==> !Final(Run(G, st, n)))
  }

  ghost predicate MayEnd(G: Ctx, st: State, X: Frame) {
    exists b :: Reaches(G, st, Failed(X, b))
  }

  /** When all are refused and it does not hang, it fails. */
  ghost predicate Tries(G: Ctx, st: State, X: Frame, t: Tried, n: nat) {
    Part(G, st, X, t, n) && (!t.hangs && AllRefused(G, X, t.outs) ==> MayEnd(G, st, X))
  }

  // -------------------------------------------------------------- working with them

  lemma HangsFrom(G: Ctx, st: State, st': State, n: nat)
    requires Reaches(G, st, st') && !Final(Run(G, st', n))
    ensures !Final(Run(G, st, n))
  {
    var m: nat :| Run(G, st, m) == st';
    RunAdd(G, st, m, n);
    if Final(Run(G, st, n)) {
      StillFinal(G, st, n, m + n);
    }
  }

  lemma {:induction false} StillFinal(G: Ctx, st: State, m: nat, n: nat)
    requires Final(Run(G, st, m)) && m <= n
    ensures Final(Run(G, st, n))
    decreases n
  {
    hide Step;
    if m < n {
      StillFinal(G, st, m, n - 1);
      RunLast(G, st, n - 1);
      FinalStays(G, Run(G, st, n - 1));
    }
  }

  lemma FinalStays(G: Ctx, st: State)
    requires Final(st)
    ensures Step(G, st) == st
  {
  }

  /** A step at least counts. */
  lemma HangsAfter(G: Ctx, st: State, st': State, n: nat)
    requires Reaches(G, st, st') && st != st' && !Final(st) && (n > 0 ==> !Final(Run(G, st', n - 1)))
    ensures !Final(Run(G, st, n))
  {
    hide Step;
    if n > 0 {
      var m: nat :| Run(G, st, m) == st';
      RunAdd(G, st, m, n - 1);
      if Final(Run(G, st, n)) {
        StillFinal(G, st, n, m + (n - 1));
      }
    }
  }

  lemma OfferedFrom(G: Ctx, st: State, st': State, X: Frame, outs: seq<Out>)
    requires Reaches(G, st, st') && Offered(G, st', X, outs)
    ensures Offered(G, st, X, outs)
  {
    hide AllRefused, Reaches, Goal;
    forall i | 0 <= i < |outs| && AllRefused(G, X, outs[..i])
      ensures Meets(G, st, X, outs[i])
    {
      var h :| Reaches(G, st', Goal(X, outs[i], h));
      ReachesTrans(G, st, st', Goal(X, outs[i], h));
    }
  }

  lemma TriesFrom(G: Ctx, st: State, st': State, X: Frame, t: Tried, n: nat)
    requires Reaches(G, st, st') && Tries(G, st', X, t, n)
    ensures Tries(G, st, X, t, n)
  {
    hide AllRefused, Reaches, Failed, Offered, Run;
    OfferedFrom(G, st, st', X, t.outs);
    if AllRefused(G, X, t.outs) {
      if t.hangs {
        HangsFrom(G, st, st', n);
      } else {
        var b :| Reaches(G, st', Failed(X, b));
        ReachesTrans(G, st, st', Failed(X, b));
      }
    }
  }

  lemma RefusedSplit(G: Ctx, X: Frame, a: seq<Out>, b: seq<Out>)
    ensures AllRefused(G, X, a + b) <==> AllRefused(G, X, a) && AllRefused(G, X, b)
  {
    hide Refuses;
    if AllRefused(G, X, a + b) {
      forall i | 0 <= i < |a|
        ensures Refuses(G, X, a[i].end)
      {
        assert (a + b)[i] == a[i];
      }
      forall i | 0 <= i < |b|
        ensures Refuses(G, X, b[i].end)
      {
        assert (a + b)[|a| + i] == b[i];
      }
    }
  }

  lemma OfferedJoined(G: Ctx, st: State, X: Frame, a: seq<Out>, b: seq<Out>)
    requires Offered(G, st, X, a) && (AllRefused(G, X, a) ==> Offered(G, st, X, b))
    ensures Offered(G, st, X, a + b)
  {
    hide AllRefused, Meets;
    forall i | 0 <= i < |a + b| && AllRefused(G, X, (a + b)[..i])
      ensures Meets(G, st, X, (a + b)[i])
    {
      if i < |a| {
        assert (a + b)[..i] == a[..i];
      } else {
        assert (a + b)[..i] == a + b[..i - |a|];
        RefusedSplit(G, X, a, b[..i - |a|]);
      }
    }
  }

  /** A first part, and what is tried when all of it has been refused. */
  lemma Join(G: Ctx, st: State, X: Frame, x: Tried, y: Tried, n: nat)
    requires Part(G, st, X, x, n) && (!x.hangs && AllRefused(G, X, x.outs) ==> Tries(G, st, X, y, n))
    ensures Tries(G, st, X, Joined(x, y), n)
  {
    hide AllRefused, Offered, MayEnd, Run;
    if !x.hangs {
      OfferedJoined(G, st, X, x.outs, y.outs);
      RefusedSplit(G, X, x.outs, y.outs);
    }
  }

  lemma JoinPart(G: Ctx, st: State, X: Frame, x: Tried, y: Tried, n: nat)
    requires Part(G, st, X, x, n) && (!x.hangs && AllRefused(G, X, x.outs) ==> Part(G, st, X, y, n))
    ensures Part(G, st, X, Joined(x, y), n)
  {
    hide AllRefused, Offered, Run;
    if !x.hangs {
      OfferedJoined(G, st, X, x.outs, y.outs);
      RefusedSplit(G, X, x.outs, y.outs);
    }
  }

  lemma PartOne(G: Ctx, st: State, X: Frame, out: Out, h: seq<Entry>, n: nat)
    requires Reaches(G, st, Goal(X, out, h))
    ensures Part(G, st, X, Tried([out], false), n)
  {
    hide Reaches, Goal, AllRefused;
    assert Meets(G, st, X, out);
  }

  /** The first has been refused. */
  lemma DropFirst(G: Ctx, st: State, X: Frame, outs: seq<Out>, hangs: bool, n: nat)
    requires Tries(G, st, X, Tried(outs, hangs), n) && outs != [] && Refuses(G, X, outs[0].end)
    ensures Tries(G, st, X, Tried(outs[1..], hangs), n)
  {
    hide AllRefused, Refuses, Meets, MayEnd, Run;
    var rest := outs[1..];
    OneRefused(G, X, outs[0]);
    forall i | 0 <= i < |rest| && AllRefused(G, X, rest[..i])
      ensures Meets(G, st, X, rest[i])
    {
      assert outs[..i + 1] == [outs[0]] + rest[..i] && rest[i] == outs[i + 1];
      RefusedSplit(G, X, [outs[0]], rest[..i]);
    }
    assert outs == [outs[0]] + rest;
    RefusedSplit(G, X, [outs[0]], rest);
  }

  lemma OneRefused(G: Ctx, X: Frame, out: Out)
    ensures AllRefused(G, X, [out]) <==> Refuses(G, X, out.end)
  {
    hide Refuses;
    if AllRefused(G, X, [out]) {
      assert Refuses(G, X, [out][0].end);
    }
  }

  // ------------------------------------------------------ one frame above another

  /** X1 runs on top of X, with more history and more captures. */
  ghost predicate Above(X1: Frame, X: Frame, hx: seq<Entry>, nx: seq<Cap>) {
    X1.k == X.k && X1.stk == X.stk && X1.hist == X.hist + hx && X1.names == X.names + nx
  }

  lemma GoalAbove(X1: Frame, X: Frame, hx: seq<Entry>, nx: seq<Cap>, out: Out, h: seq<Entry>)
    requires Above(X1, X, hx, nx)
    ensures Goal(X1, out, h) == Goal(X, Out(out.end, nx + out.caps), hx + h)
    ensures forall b :: Retried(X1, out, h, b) == Retried(X, Out(out.end, nx + out.caps), hx + h, b)
  {
    assert X1.hist + h == X.hist + (hx + h) && X1.names + out.caps == X.names + (nx + out.caps);
  }

  lemma RefusesAbove(G: Ctx, X1: Frame, X: Frame, hx: seq<Entry>, nx: seq<Cap>, e: int)
    requires Above(X1, X, hx, nx) && Refuses(G, X, e)
    ensures Refuses(G, X1, e)
  {
    hide Above, Goal, Retried, Reaches;
    forall out: Out, h | out.end == e
      ensures Refused(G, X1, out, h)
    {
      GoalAbove(X1, X, hx, nx, out, h);
      assert Refused(G, X, Out(out.end, nx + out.caps), hx + h);
    }
  }

  /** The same cursors, whatever was captured on the way. */
  ghost predicate SameEnds(a: seq<Out>, b: seq<Out>) {
    |a| == |b| && forall i :: 0 <= i < |a| ==> a[i].end == b[i].end
  }

  lemma AllAbove(G: Ctx, X1: Frame, X: Frame, hx: seq<Entry>, nx: seq<Cap>, a: seq<Out>, b: seq<Out>)
    requires Above(X1, X, hx, nx) && AllRefused(G, X, a) && SameEnds(a, b)
    ensures AllRefused(G, X1, b)
  {
    hide Above, Refuses;
    forall i | 0 <= i < |b|
      ensures Refuses(G, X1, b[i].end)
    {
      assert Refuses(G, X, a[i].end);
      RefusesAbove(G, X1, X, hx, nx, b[i].end);
    }
  }

  lemma OfferedAbove(G: Ctx, st: State, X1: Frame, X: Frame, hx: seq<Entry>, nx: seq<Cap>, outs: seq<Out>)
    requires Above(X1, X, hx, nx) && Offered(G, st, X1, outs)
    ensures Offered(G, st, X, Prefixed(nx, outs))
  {
    hide Above, AllRefused, Reaches, Goal;
    var more := Prefixed(nx, outs);
    forall i | 0 <= i < |more| && AllRefused(G, X, more[..i])
      ensures Meets(G, st, X, more[i])
    {
      AllAbove(G, X1, X, hx, nx, more[..i], outs[..i]);
      var h :| Reaches(G, st, Goal(X1, outs[i], h));
      GoalAbove(X1, X, hx, nx, outs[i], h);
    }
  }

  lemma PartAbove(G: Ctx, st: State, X1: Frame, X: Frame, hx: seq<Entry>, nx: seq<Cap>, t: Tried, n: nat)
    requires Above(X1, X, hx, nx) && Part(G, st, X1, t, n)
    ensures Part(G, st, X, Under(nx, t), n)
    ensures AllRefused(G, X, Under(nx, t).outs) ==> AllRefused(G, X1, t.outs)
  {
    hide Above, AllRefused, Offered, Run;
    OfferedAbove(G, st, X1, X, hx, nx, t.outs);
    if AllRefused(G, X, Under(nx, t).outs) {
      AllAbove(G, X1, X, hx, nx, Under(nx, t).outs, t.outs);
    }
  }

  lemma UnderNothing(t: Tried)
    ensures Under([], t) == t
  {
    PrefixedNothing(t.outs);
  }

  /** The failure of X1 leads to that of X. */
  ghost predicate FailsInto(G: Ctx, X1: Frame, X: Frame) {
    forall b :: MayEnd(G, Failed(X1, b), X)
  }

  lemma TriesAbove(G: Ctx, st: State, X1: Frame, X: Frame, hx: seq<Entry>, t: Tried, n: nat)
    requires Above(X1, X, hx, []) && Tries(G, st, X1, t, n) && FailsInto(G, X1, X)
    ensures Tries(G, st, X, t, n)
  {
    hide Above, AllRefused, Offered, Run, Failed, Reaches;
    PartAbove(G, st, X1, X, hx, [], t, n);
    UnderNothing(t);
    if !t.hangs && AllRefused(G, X, t.outs) {
      var b :| Reaches(G, st, Failed(X1, b));
      var b' :| Reaches(G, Failed(X1, b), Failed(X, b'));
      ReachesTrans(G, st, Failed(X1, b), Failed(X, b'));
    }
  }

  // ---------------------------------------------------------- patterns of one node

  /** The fragment for p sits at offset o in the surroundings X. */
  ghost predicate Sits(G: Ctx, p: Pat, o: int, X: Frame, r: int) {
    && G.full && 0 <= o && 0 <= r && 0 <= X.c <= |G.subj|
    && Has(G.code, o, Cells(p, o, X.k, X.a, r)) && WellFormed(p)
  }

  lemma {:induction false} FromOffers(G: Ctx, st: State, X: Frame, X1: Frame, outs: seq<Out>, n: nat)
    requires G.full && Offers(G, st, X1, outs) && X1 == X.(mute := X1.mute)
    ensures Tries(G, st, X, Tried(outs, false), n)
    decreases |outs|
  {
    hide Reaches, Goal, Retried, Failed, AllRefused, Run;
    if outs == [] {
      var b :| MayFail(G, X1, b) && Reaches(G, st, Failed(X1, b));
      SameFailed(X, X1, b);
    } else {
      var h :| OffersFirst(G, st, X1, outs, h);
      SameGoal(X, X1, outs[0], h);
      PartOne(G, st, X, outs[0], h, n);
      OneRefused(G, X, outs[0]);
      if Refuses(G, X, outs[0].end) {
        assert Refused(G, X, outs[0], h);
        var b :| Reaches(G, Goal(X, outs[0], h), Retried(X, outs[0], h, b));
        assert Fair(G, X1.dead, outs[0].end, b);
        FromOffers(G, Retried(X1, outs[0], h, b), X, X1, outs[1..], n);
        ReachesTrans(G, st, Goal(X, outs[0], h), Retried(X, outs[0], h, b));
        TriesFrom(G, st, Retried(X, outs[0], h, b), X, Tried(outs[1..], false), n);
      }
      Join(G, st, X, Tried([outs[0]], false), Tried(outs[1..], false), n);
      assert [outs[0]] + outs[1..] == outs;
    }
  }

  lemma SameFailed(X: Frame, X1: Frame, b: bool)
    requires X1 == X.(mute := X1.mute)
    ensures Failed(X1, b) == Failed(X, b)
  {
  }

  lemma SameGoal(X: Frame, X1: Frame, out: Out, h: seq<Entry>)
    requires X1 == X.(mute := X1.mute)
    ensures Goal(X1, out, h) == Goal(X, out, h) && forall b :: Retried(X1, out, h, b) == Retried(X, out, h, b)
  {
  }

  lemma BaseTries(G: Ctx, p: Pat, o: int, X: Frame, r: int, n: nat)
    requires Sits(G, p, o, X, r) && (p.Single? || p.Arb? || p.Bal?)
    ensures Tries(G, Entered(X, o), X, FullEnds(p, G.subj, X.c), n)
  {
    hide Offers, Tries, Has, Cells, Ends, Later, WellFormed;
    var X1 := X.(mute := Later(p, G.subj, X.c, X.dead));
    Correct(G, p, o, X1, r);
    assert Entered(X1, o) == Entered(X, o);
    FromOffers(G, Entered(X, o), X, X1, Ends(p, G.subj, X.c), n);
  }

  // --------------------------------------------- alternation and concatenation

  lemma SitsAlt(G: Ctx, x: Pat, y: Pat, o: int, X: Frame, r: int)
    requires Sits(G, Alt(x, y), o, X, r)
    ensures var m := o + Size(x);
            && m > 0 && 0 <= X.c <= |G.subj| && G.full
            && Sits(G, x, o, X.(a := m), r) && forall b :: Sits(G, y, m, X.(lenf := b), r)
  {
    hide Cells, Has, Size, WellFormed;
    WellFormedCases(x, y, "");
    CellsAlt(x, y, o, X.k, X.a, r);
    HasSplit(G.code, o, Cells(x, o, X.k, o + Size(x), r), Cells(y, o + Size(x), X.k, X.a, r));
  }

  lemma {:induction false} AltTries(G: Ctx, x: Pat, y: Pat, o: int, X: Frame, r: int, n: nat)
    requires Sits(G, Alt(x, y), o, X, r)
    ensures Tries(G, Entered(X, o), X, FullEnds(Alt(x, y), G.subj, X.c), n)
    decreases Alt(x, y), 0, 0, 0, 0
  {
    hide Sits, Refuses, Reaches, Run, Size, Joined, Offered;
    var m, s, c, st := o + Size(x), G.subj, X.c, Entered(X, o);
    var X1 := X.(a := m);
    SitsAlt(G, x, y, o, X, r);
    var t, u := FullEnds(x, s, c), FullEnds(y, s, c);
    FullCorrect(G, x, o, X1, r, n);
    SameFrame(G, st, X1, X, t, n);
    if !t.hangs && AllRefused(G, X, t.outs) {
      var b :| Reaches(G, st, Failed(X1, b));
      var X2 := X.(lenf := b);
      FullCorrect(G, y, m, X2, r, n);
      SameFrame(G, Entered(X2, m), X2, X, u, n);
      AnyFlag(G, Entered(X2, m), X2, X, u, n);
      TriesFrom(G, st, Entered(X2, m), X, u, n);
    }
    Join(G, st, X, t, u, n);
  }

  /** What is offered does not depend on the fragment's alternate and flag. */
  lemma SameFrame(G: Ctx, st: State, X1: Frame, X: Frame, t: Tried, n: nat)
    requires X1 == X.(a := X1.a, lenf := X1.lenf) && Part(G, st, X1, t, n)
    ensures Part(G, st, X, t, n) && (AllRefused(G, X, t.outs) ==> AllRefused(G, X1, t.outs))
  {
    hide Offered, Run, AllRefused;
    assert Above(X1, X, [], []);
    PartAbove(G, st, X1, X, [], [], t, n);
    UnderNothing(t);
  }

  lemma AnyFlag(G: Ctx, st: State, X1: Frame, X: Frame, t: Tried, n: nat)
    requires X1 == X.(lenf := X1.lenf) && Tries(G, st, X1, t, n)
    ensures Tries(G, st, X, t, n)
  {
    hide Offered, Run, AllRefused, Reaches;
    SameFrame(G, st, X1, X, t, n);
    assert forall b :: Failed(X1, b) == Failed(X, b);
  }

  /** The fragment for y sits at m as a continuation. */
  ghost predicate Follows(G: Ctx, y: Pat, m: int, k: int, r: int) {
    G.full && 0 < m && 0 <= r && Has(G.code, m, Cells(y, m, k, 0, r)) && WellFormed(y)
  }

  lemma SitsCat(G: Ctx, x: Pat, y: Pat, o: int, X: Frame, r: int)
    requires Sits(G, Cat(x, y), o, X, r)
    ensures var m := o + Size(x);
            && 0 <= X.c <= |G.subj| && G.full && Sits(G, x, o, X.(k := m), MinLen(y) + r) && Follows(G, y, m, X.k, r)
  {
    hide Cells, Has, Size, MinLen, WellFormed;
    WellFormedCases(x, y, "");
    CellsCat(x, y, o, X.k, X.a, r);
    HasSplit(G.code, o, Cells(x, o, o + Size(x), X.a, MinLen(y) + r), Cells(y, o + Size(x), X.k, 0, r));
  }

  lemma {:induction false} CatTries(G: Ctx, x: Pat, y: Pat, o: int, X: Frame, r: int, n: nat)
    requires Sits(G, Cat(x, y), o, X, r)
    ensures Tries(G, Entered(X, o), X, FullEnds(Cat(x, y), G.subj, X.c), n)
    decreases Cat(x, y), 0, 0, 0, 0
  {
    hide Sits, Tries, Size, Follows, FullCat, MinLen;
    SitsCat(G, x, y, o, X, r);
    var m, t := o + Size(x), FullEnds(x, G.subj, X.c);
    FullCorrect(G, x, o, X.(k := m), MinLen(y) + r, n);
    CatRestTries(G, y, m, X, r, Entered(X, o), t.outs, t.hangs, n);
  }

  /** The surroundings of y when it continues from out. */
  ghost function NextFrame(X: Frame, out: Out, h: seq<Entry>): Frame {
    Frame(X.k, 0, out.end, true, X.hist + h, X.stk, X.names + out.caps, X.dead, X.mute)
  }

  lemma NextIs(X: Frame, m: int, out: Out, h: seq<Entry>)
    requires m > 0
    ensures Goal(X.(k := m), out, h) == Entered(NextFrame(X, out, h), m)
    ensures Above(NextFrame(X, out, h), X, h, out.caps)
    ensures forall b :: Failed(NextFrame(X, out, h), b) == Retried(X.(k := m), out, h, b)
  {
  }

  /** Each end that x offers is continued by y. */
  lemma {:induction false} CatRestTries(G: Ctx, y: Pat, m: int, X: Frame, r: int, st: State, outs: seq<Out>, hangs: bool, n: nat)
    requires Follows(G, y, m, X.k, r) && Within(outs, X.c, G.subj) && Tries(G, st, X.(k := m), Tried(outs, hangs), n)
    ensures Tries(G, st, X, FullCat(y, G.subj, X.c, outs, hangs), n)
    decreases y, 8, |outs|, 0, 0
  {
    hide Follows, Tries, Part, AllRefused, Joined, Under, FullEnds, Refuses, Run, Meets, Goal;
    var s, X1 := G.subj, X.(k := m);
    if outs == [] {
      NothingMore(G, st, X, m, hangs, n);
    } else {
      var first := outs[0];
      assert first in outs;
      var a, more := Under(first.caps, FullEnds(y, s, first.end)), FullCat(y, s, X.c, outs[1..], hangs);
      CatFirstTries(G, y, m, X, r, st, outs, hangs, n);
      if !a.hangs && AllRefused(G, X, a.outs) {
        DropFirst(G, st, X1, outs, hangs, n);
        CatRestTries(G, y, m, X, r, st, outs[1..], hangs, n);
      }
      Join(G, st, X, a, more, n);
    }
  }

  lemma NothingMore(G: Ctx, st: State, X: Frame, m: int, hangs: bool, n: nat)
    requires Tries(G, st, X.(k := m), Tried([], hangs), n)
    ensures Tries(G, st, X, Tried([], hangs), n)
  {
    hide Run, Reaches;
    assert forall b :: Failed(X.(k := m), b) == Failed(X, b);
  }

  lemma {:induction false} CatFirstTries(G: Ctx, y: Pat, m: int, X: Frame, r: int, st: State, outs: seq<Out>, hangs: bool, n: nat)
    requires Follows(G, y, m, X.k, r) && Within(outs, X.c, G.subj) && outs != []
    requires Tries(G, st, X.(k := m), Tried(outs, hangs), n)
    ensures outs[0] in outs
    ensures var a := Under(outs[0].caps, FullEnds(y, G.subj, outs[0].end));
            Part(G, st, X, a, n) && (!a.hangs && AllRefused(G, X, a.outs) ==> Refuses(G, X.(k := m), outs[0].end))
    decreases y, 8, 0, 0, 0
  {
    hide Follows, AllRefused, FullEnds, Run, Goal, Above, Failed, Reaches, NextFrame, Retried, Prefixed;
    var s, X1, first := G.subj, X.(k := m), outs[0];
    assert first in outs;
    var t := FullEnds(y, s, first.end);
    FirstMet(G, st, X1, outs, hangs, n);
    assert m > 0 by { FollowsParts(G, y, m, X.k, r); }
    var h :| Reaches(G, st, Goal(X1, first, h));
    NextIs(X, m, first, h);
    NextTries(G, y, m, X, r, first, h, n);
    PartAbove(G, Entered(NextFrame(X, first, h), m), NextFrame(X, first, h), X, h, first.caps, t, n);
    PartFrom(G, st, Goal(X1, first, h), X, Under(first.caps, t), n);
    if !t.hangs && AllRefused(G, X, Under(first.caps, t).outs) {
      forall out: Out, h' | out.end == first.end
        ensures Refused(G, X1, out, h')
      {
        NextRefused(G, y, m, X, r, out, h', first.caps, n);
      }
    }
  }

  lemma FollowsParts(G: Ctx, y: Pat, m: int, k: int, r: int)
    requires Follows(G, y, m, k, r)
    ensures 0 < m && 0 <= r && G.full
  {
  }

  lemma FirstMet(G: Ctx, st: State, X: Frame, outs: seq<Out>, hangs: bool, n: nat)
    requires Tries(G, st, X, Tried(outs, hangs), n) && outs != []
    ensures Meets(G, st, X, outs[0])
  {
    hide Meets, Run, Refuses;
    assert AllRefused(G, X, outs[..0]);
  }

  lemma PartFrom(G: Ctx, st: State, st': State, X: Frame, t: Tried, n: nat)
    requires Reaches(G, st, st') && Part(G, st', X, t, n)
    ensures Part(G, st, X, t, n)
  {
    hide AllRefused, Reaches, Offered, Run;
    OfferedFrom(G, st, st', X, t.outs);
    if AllRefused(G, X, t.outs) && t.hangs {
      HangsFrom(G, st, st', n);
    }
  }

  lemma {:induction false} NextTries(G: Ctx, y: Pat, m: int, X: Frame, r: int, out: Out, h: seq<Entry>, n: nat)
    requires Follows(G, y, m, X.k, r) && 0 <= out.end <= |G.subj|
    ensures Tries(G, Entered(NextFrame(X, out, h), m), NextFrame(X, out, h), FullEnds(y, G.subj, out.end), n)
    decreases y, 5, 0, 0, 0
  {
    hide FullEnds, Tries, Entered, Cells, Has, WellFormed;
    FullCorrect(G, y, m, NextFrame(X, out, h), r, n);
  }

  /** When all ends of y at e are refused, y refuses e. */
  lemma {:induction false} NextRefused(G: Ctx, y: Pat, m: int, X: Frame, r: int, out: Out, h: seq<Entry>, caps: seq<Cap>, n: nat)
    requires Follows(G, y, m, X.k, r) && 0 <= out.end <= |G.subj|
    requires var t := FullEnds(y, G.subj, out.end); !t.hangs && AllRefused(G, X, Under(caps, t).outs)
    ensures Refused(G, X.(k := m), out, h)
    decreases y, 6, 0, 0, 0
  {
    hide Follows, AllRefused, FullEnds, Run, Goal, Above, Failed, Reaches, NextFrame, Retried, Part;
    var X2, t := NextFrame(X, out, h), FullEnds(y, G.subj, out.end);
    assert m > 0 by { FollowsParts(G, y, m, X.k, r); }
    NextTries(G, y, m, X, r, out, h, n);
    NextIs(X, m, out, h);
    AllAbove(G, X2, X, h, out.caps, Under(caps, t).outs, t.outs);
    var b :| Reaches(G, Entered(X2, m), Failed(X2, b));
    assert Reaches(G, Goal(X.(k := m), out, h), Retried(X.(k := m), out, h, b));
  }

  // ---------------------------------------------------------------- captures

  lemma SitsCapture(G: Ctx, b: Pat, name: string, o: int, X: Frame, r: int)
    requires Sits(G, Capture(b, name), o, X, r)
    ensures var m, z := MinLen(b) + r, o + 3 + Size(b);
            && 0 <= o < z && 0 <= X.c <= |G.subj| && 0 <= r && G.full
            && Has(G.code, o, Node(NME, X.a, o + 3, m, m))
            && Has(G.code, z, ArgNode(ENME, 0, X.k, r, r, Str(name)))
            && Sits(G, b, o + 3, CaptureFrame(b, G.subj, z, X, m), r)
  {
    hide Cells, Has, Size, MinLen, Node, ArgNode, Own, WellFormed, Later;
    WellFormedCases(b, b, name);
    var m, z := MinLen(b) + r, o + 3 + Size(b);
    var tail := ArgNode(ENME, 0, X.k, r, r, Str(name));
    CellsCapture(b, name, o, X.k, X.a, r);
    HasSplit(G.code, o, Node(NME, X.a, o + 3, m, m), Cells(b, o + 3, z, 0, r) + tail);
    HasSplit(G.code, o + 3, Cells(b, o + 3, z, 0, r), tail);
  }

  lemma {:induction false} CaptureTries(G: Ctx, b: Pat, name: string, o: int, X: Frame, r: int, n: nat)
    requires Sits(G, Capture(b, name), o, X, r)
    ensures Tries(G, Entered(X, o), X, FullEnds(Capture(b, name), G.subj, X.c), n)
    decreases Capture(b, name), 0, 0, 0, 0
  {
    hide Sits, Tries, Size, MinLen, Step, Has, Node, ArgNode, Captured, CaptureFrame, Own;
    var s, c, m, z := G.subj, X.c, MinLen(b) + r, o + 3 + Size(b);
    SitsCapture(G, b, name, o, X, r);
    NodeStep(G, o, NME, X.a, o + 3, m, m, c, X.lenf, X.hist, X.stk, X.names);
    var X1 := CaptureFrame(b, s, z, X, m);
    CaptureFrameIs(b, s, z, X, m);
    FullCorrect(G, b, o + 3, X1, r, n);
    ReachesSelf(G, Entered(X1, o + 3));
    ReachesStep(G, Entered(X, o), Entered(X1, o + 3));
    var t := FullEnds(b, s, c);
    TriesFrom(G, Entered(X, o), Entered(X1, o + 3), X1, t, n);
    Recorded(G, b, name, z, X, m, r, Entered(X, o), t, n);
  }

  lemma CaptureFrameIs(b: Pat, s: string, z: int, X: Frame, m: int)
    ensures var X1 := CaptureFrame(b, s, z, X, m);
            && X1.k == z && X1.a == 0 && X1.c == X.c && X1.lenf && X1.stk == X.stk + [X.c] && X1.names == X.names
            && X1.hist == X.hist + [Entry(To(X.a), X.c, m, X.lenf)] + [Entry(Trap(FNME), X.c, 0, X.lenf)]
  {
  }

  /** The history behind ENME. */
  ghost function RecordHist(X: Frame, m: int, r: int, e: int, h: seq<Entry>): seq<Entry> {
    [Own(X, m), Entry(Trap(FNME), X.c, 0, X.lenf)] + h + [Entry(To(0), e, r, true), Entry(Trap(DNME), e, X.c, true)]
  }

  lemma RecordOne(G: Ctx, b: Pat, name: string, z: int, X: Frame, m: int, r: int, out: Out, h: seq<Entry>)
    requires G.full && z > 0 && 0 <= r && Has(G.code, z, ArgNode(ENME, 0, X.k, r, r, Str(name))) && 0 <= out.end <= |G.subj|
    ensures var X1, out1, h1 := CaptureFrame(b, G.subj, z, X, m), Out(out.end, out.caps + [Cap(name, X.c, out.end)]),
                                RecordHist(X, m, r, out.end, h);
            && Reaches(G, Goal(X1, out, h), Goal(X, out1, h1))
            && forall f :: Reaches(G, Retried(X, out1, h1, f), Retried(X1, out, h, f))
  {
    hide Has, ArgNode, Reaches, Step, Own, Later;
    var X1, e, cap := CaptureFrame(b, G.subj, z, X, m), out.end, Cap(name, X.c, out.end);
    var out1, h1 := Out(e, out.caps + [cap]), RecordHist(X, m, r, e, h);
    var hist, names1 := X1.hist + h, X.names + out.caps;
    var own, trap := Entry(To(0), e, r, true), Entry(Trap(DNME), e, X.c, true);
    ArgNodeStep(G, z, ENME, 0, X.k, r, r, Str(name), e, true, hist, X1.stk, names1);
    assert hist + [own] + [trap] == X.hist + h1 && names1 + [cap] == X.names + out1.caps;
    assert (X.stk + [X.c])[..|X.stk|] == X.stk;
    ReachesSelf(G, Goal(X, out1, h1));
    ReachesStep(G, Goal(X1, out, h), Goal(X, out1, h1));
    forall f
      ensures Reaches(G, Retried(X, out1, h1, f), Retried(X1, out, h, f))
    {
      PopCapture(G, f, hist + [own], trap, X.stk, names1, cap);
      PopZero(G, f, hist, own, X1.stk, names1);
      ReachesSelf(G, Retried(X1, out, h, f));
      ReachesStep(G, Back(f, hist + [own], X1.stk, names1), Retried(X1, out, h, f));
      ReachesStep(G, Retried(X, out1, h1, f), Retried(X1, out, h, f));
    }
  }

  lemma RecordRefuses(G: Ctx, b: Pat, name: string, z: int, X: Frame, m: int, r: int, e: int)
    requires G.full && z > 0 && 0 <= r && Has(G.code, z, ArgNode(ENME, 0, X.k, r, r, Str(name))) && 0 <= e <= |G.subj|
    requires Refuses(G, X, e)
    ensures Refuses(G, CaptureFrame(b, G.subj, z, X, m), e)
  {
    hide Has, ArgNode, Reaches, Goal, Retried, CaptureFrame, RecordHist;
    var X1 := CaptureFrame(b, G.subj, z, X, m);
    forall out: Out, h | out.end == e
      ensures Refused(G, X1, out, h)
    {
      RecordOne(G, b, name, z, X, m, r, out, h);
      var out1, h1 := Out(e, out.caps + [Cap(name, X.c, e)]), RecordHist(X, m, r, e, h);
      assert Refused(G, X, out1, h1);
      var f :| Reaches(G, Goal(X, out1, h1), Retried(X, out1, h1, f));
      ReachesTrans(G, Goal(X1, out, h), Goal(X, out1, h1), Retried(X, out1, h1, f));
      ReachesTrans(G, Goal(X1, out, h), Retried(X, out1, h1, f), Retried(X1, out, h, f));
    }
  }

  lemma AllRecordRefuse(G: Ctx, b: Pat, name: string, z: int, X: Frame, m: int, r: int, outs: seq<Out>, i: int)
    requires G.full && z > 0 && 0 <= r && Has(G.code, z, ArgNode(ENME, 0, X.k, r, r, Str(name)))
    requires 0 <= i <= |outs| && Within(outs, X.c, G.subj) && AllRefused(G, X, Captured(name, X.c, outs)[..i])
    ensures AllRefused(G, CaptureFrame(b, G.subj, z, X, m), outs[..i])
  {
    hide Has, ArgNode, CaptureFrame, Refuses;
    forall j | 0 <= j < i
      ensures Refuses(G, CaptureFrame(b, G.subj, z, X, m), outs[..i][j].end)
    {
      var more := Captured(name, X.c, outs);
      assert more[..i][j].end == outs[j].end && outs[j] in outs;
      assert Refuses(G, X, more[..i][j].end);
      RecordRefuses(G, b, name, z, X, m, r, outs[j].end);
    }
  }

  lemma {:induction false} CapturedAt(name: string, c: int, outs: seq<Out>, i: int)
    requires 0 <= i < |outs|
    ensures Captured(name, c, outs)[i] == Out(outs[i].end, outs[i].caps + [Cap(name, c, outs[i].end)])
    decreases i
  {
    if i > 0 {
      CapturedAt(name, c, outs[1..], i - 1);
    }
  }

  lemma Recorded(G: Ctx, b: Pat, name: string, z: int, X: Frame, m: int, r: int, st: State, t: Tried, n: nat)
    requires G.full && z > 0 && 0 <= r && Has(G.code, z, ArgNode(ENME, 0, X.k, r, r, Str(name))) && Within(t.outs, X.c, G.subj)
    requires Tries(G, st, CaptureFrame(b, G.subj, z, X, m), t, n)
    ensures Tries(G, st, X, Tried(Captured(name, X.c, t.outs), t.hangs), n)
  {
    hide Has, ArgNode, CaptureFrame, AllRefused, Reaches, Goal, Run, Failed, RecordHist;
    var X1, outs, more := CaptureFrame(b, G.subj, z, X, m), t.outs, Captured(name, X.c, t.outs);
    forall i | 0 <= i < |more| && AllRefused(G, X, more[..i])
      ensures Meets(G, st, X, more[i])
    {
      AllRecordRefuse(G, b, name, z, X, m, r, outs, i);
      CapturedAt(name, X.c, outs, i);
      assert Meets(G, st, X1, outs[i]) && outs[i] in outs;
      var h :| Reaches(G, st, Goal(X1, outs[i], h));
      RecordOne(G, b, name, z, X, m, r, outs[i], h);
      ReachesTrans(G, st, Goal(X1, outs[i], h), Goal(X, more[i], RecordHist(X, m, r, outs[i].end, h)));
    }
    if AllRefused(G, X, more) {
      assert more[..|outs|] == more && outs[..|outs|] == outs;
      AllRecordRefuse(G, b, name, z, X, m, r, outs, |outs|);
      if !t.hangs {
        var f :| Reaches(G, st, Failed(X1, f));
        CaptureEnds(G, b, z, X, m, f);
        ReachesTrans(G, st, Failed(X1, f), Failed(X, f && X.lenf));
      }
    }
  }

  lemma CaptureEnds(G: Ctx, b: Pat, z: int, X: Frame, m: int, f: bool)
    ensures Reaches(G, Failed(CaptureFrame(b, G.subj, z, X, m), f), Failed(X, f && X.lenf))
  {
    hide Reaches;
    CaptureFails(G, X, m, f);
  }

  // ------------------------------------------------------------------- ARBNO

  /** The surroundings of the round that follows one that ended with first. */
  ghost function AgainFrame(b: Pat, o: int, Y: Frame, r: int, first: Out, h: seq<Entry>, f: bool): Frame {
    var z, e := o + 12 + Size(b), first.end;
    Frame(Y.k, 0, e, true, Parked(o, Y, r, h, e) + [Entry(To(z + 9), e, r, f)], Y.stk, Y.names + first.caps, Y.dead, Y.mute)
  }

  /** The history behind a round that ended with first. */
  ghost function RoundHist(b: Pat, o: int, Y: Frame, r: int, e: int, h: seq<Entry>): seq<Entry> {
    [Entry(To(o + 9), Y.c, r, Y.lenf)] + h + [Entry(To(Y.c), e, 0, false), Entry(To(o + 18 + Size(b)), e, r, true)]
  }

  /** A round's end is offered; when it is refused another round begins, and
      when that has failed the body is tried again. */
  lemma RoundOne(G: Ctx, b: Pat, o: int, Y: Frame, r: int, first: Out, h: seq<Entry>)
    requires G.full && Loop(G, b, o, Y.k, r, Y.dead) && 0 <= first.end <= |G.subj|
    ensures var X1, hx := BodyFrame(b, G.subj, o, Y, r), RoundHist(b, o, Y, r, first.end, h);
            && Reaches(G, Goal(X1, first, h), Goal(Y, first, hx))
            && forall f :: Reaches(G, Retried(Y, first, hx, f), Entered(AgainFrame(b, o, Y, r, first, h, f), o + 6))
  {
    hide Loop, Has, Node, Reaches, Step, BodyFrame, Residual;
    var z, e, hx := o + 12 + Size(b), first.end, RoundHist(b, o, Y, r, first.end, h);
    var X1, h2, names := BodyFrame(b, G.subj, o, Y, r), Parked(o, Y, r, h, e), Y.names + first.caps;
    LoopNodes(G, b, o, Y.k, r, Y.dead);
    EarbStep(G, b, o, Y, r, first, h);
    var e3 := Entry(To(z + 6), e, r, true);
    NodeStep(G, z + 3, SCOK, z + 6, Y.k, r, r, e, true, h2, Y.stk, names);
    assert h2 + [e3] == Y.hist + hx;
    ReachesSelf(G, Goal(Y, first, hx));
    ReachesStep(G, Scan(z + 3, e, true, h2, Y.stk, names), Goal(Y, first, hx));
    ReachesStep(G, Goal(X1, first, h), Goal(Y, first, hx));
    forall f
      ensures Reaches(G, Retried(Y, first, hx, f), Entered(AgainFrame(b, o, Y, r, first, h, f), o + 6))
    {
      var Y2 := AgainFrame(b, o, Y, r, first, h, f);
      PopTo(G, f, h2, e3, Y.stk, names);
      NodeStep(G, z + 6, ONAR, z + 9, o + 6, r, r, e, f, h2, Y.stk, names);
      ReachesSelf(G, Entered(Y2, o + 6));
      ReachesStep(G, Scan(z + 6, e, f, h2, Y.stk, names), Entered(Y2, o + 6));
      ReachesStep(G, Retried(Y, first, hx, f), Entered(Y2, o + 6));
    }
  }

  lemma AgainAbove(b: Pat, o: int, Y: Frame, r: int, first: Out, h: seq<Entry>, f: bool)
    ensures var en := Entry(To(o + 21 + Size(b)), first.end, r, f);
            Above(AgainFrame(b, o, Y, r, first, h, f), Y,
                  [Entry(To(o + 9), Y.c, r, Y.lenf)] + h + [Entry(To(Y.c), first.end, 0, false)] + [en], first.caps)
  {
  }

  /** What a loop needs to stand at the node that starts a round. */
  ghost predicate AtRound(G: Ctx, b: Pat, o: int, Y: Frame, r: int) {
    G.full && Loop(G, b, o, Y.k, r, Y.dead) && Y.a == 0 && 0 <= Y.c <= |G.subj|
  }

  /** When the rounds after an end of the body are all refused, so is that end. */
  lemma {:induction false} RoundRefused(G: Ctx, b: Pat, o: int, Y: Frame, r: int, out: Out, h: seq<Entry>, caps: seq<Cap>, n: nat)
    requires AtRound(G, b, o, Y, r) && Y.c < out.end <= |G.subj| && Refuses(G, Y, out.end)
    requires var t := FullLoop(b, G.subj, out.end); !t.hangs && AllRefused(G, Y, Under(caps, t).outs)
    ensures Refused(G, BodyFrame(b, G.subj, o, Y, r), out, h)
    decreases b, 7, |G.subj| - Y.c, n, 0, 0
  {
    hide Loop, AllRefused, FullLoop, Run, Goal, Above, Failed, Reaches, Retried, Part, BodyFrame, AgainFrame, RoundHist;
    var X1, e, t := BodyFrame(b, G.subj, o, Y, r), out.end, FullLoop(b, G.subj, out.end);
    var hx := RoundHist(b, o, Y, r, e, h);
    RoundOne(G, b, o, Y, r, out, h);
    assert Refused(G, Y, out, hx);
    var f :| Reaches(G, Goal(Y, out, hx), Retried(Y, out, hx, f));
    var Y2 := AgainFrame(b, o, Y, r, out, h, f);
    AgainAt(G, b, o, Y, r, out, h, f);
    LoopTries(G, b, o, Y2, r, n);
    AgainAbove(b, o, Y, r, out, h, f);
    var en := Entry(To(o + 21 + Size(b)), e, r, f);
    AllAbove(G, Y2, Y, [Entry(To(o + 9), Y.c, r, Y.lenf)] + h + [Entry(To(Y.c), e, 0, false)] + [en], out.caps,
             Under(caps, t).outs, t.outs);
    var f2 :| Reaches(G, Entered(Y2, o + 6), Failed(Y2, f2));
    AgainFails(G, b, o, Y, r, out, h, f, f2);
    ReachesTrans(G, Goal(X1, out, h), Goal(Y, out, hx), Retried(Y, out, hx, f));
    ReachesTrans(G, Goal(X1, out, h), Retried(Y, out, hx, f), Entered(Y2, o + 6));
    ReachesTrans(G, Goal(X1, out, h), Entered(Y2, o + 6), Failed(Y2, f2));
    ReachesTrans(G, Goal(X1, out, h), Failed(Y2, f2), Retried(X1, out, h, f2 && f));
  }

  lemma AgainAt(G: Ctx, b: Pat, o: int, Y: Frame, r: int, out: Out, h: seq<Entry>, f: bool)
    requires AtRound(G, b, o, Y, r) && 0 <= out.end <= |G.subj|
    ensures AtRound(G, b, o, AgainFrame(b, o, Y, r, out, h, f), r) && AgainFrame(b, o, Y, r, out, h, f).c == out.end
  {
    hide Loop;
  }

  lemma AgainFails(G: Ctx, b: Pat, o: int, Y: Frame, r: int, out: Out, h: seq<Entry>, f: bool, f2: bool)
    requires AtRound(G, b, o, Y, r) && 0 <= out.end <= |G.subj|
    ensures Reaches(G, Failed(AgainFrame(b, o, Y, r, out, h, f), f2), Retried(BodyFrame(b, G.subj, o, Y, r), out, h, f2 && f))
  {
    hide Loop, Reaches, BodyFrame, Parked;
    RoundRestores(G, b, o, Y, r, out, h, f, f2);
  }

  /** A round at Y.c, and those after it. */
  lemma {:induction false} LoopTries(G: Ctx, b: Pat, o: int, Y: Frame, r: int, n: nat)
    requires AtRound(G, b, o, Y, r)
    ensures Tries(G, Entered(Y, o + 6), Y, FullLoop(b, G.subj, Y.c), n)
    decreases b, 7, |G.subj| - Y.c, n, |FullEnds(b, G.subj, Y.c).outs| + 1, 0
  {
    hide Loop, Tries, Has, Node, Step, BodyFrame, FullRounds, Joined, Sits;
    var s, c, st := G.subj, Y.c, Entered(Y, o + 6);
    var X1, t := BodyFrame(b, s, o, Y, r), FullEnds(b, s, c);
    BodySits(G, b, o, Y, r);
    FullCorrect(G, b, o + 12, X1, r, n);
    TriesFrom(G, st, Entered(X1, o + 12), X1, t, n);
    var none := Tried([], false);
    JoinedNone(FullRounds(b, s, c, t.outs, t.hangs));
    RoundsTry(G, b, o, Y, r, st, t.outs, t.hangs, none, n);
  }

  lemma JoinedNone(t: Tried)
    ensures Joined(Tried([], false), t) == t
  {
  }

  lemma JoinedThrice(x: Tried, y: Tried, z: Tried)
    ensures Joined(Joined(x, y), z) == Joined(x, Joined(y, z))
  {
  }

  lemma BodySits(G: Ctx, b: Pat, o: int, Y: Frame, r: int)
    requires AtRound(G, b, o, Y, r)
    ensures var X1 := BodyFrame(b, G.subj, o, Y, r);
            && X1.c == Y.c && Sits(G, b, o + 12, X1, r) && Reaches(G, Entered(Y, o + 6), Entered(X1, o + 12))
  {
    hide Has, Node, Cells, Residual, Step, DeadRound, Later, Reaches;
    var X1 := BodyFrame(b, G.subj, o, Y, r);
    LoopNodes(G, b, o, Y.k, r, Y.dead);
    NodeStep(G, o + 6, ARBN, o + 9, o + 12, r, r, Y.c, Y.lenf, Y.hist, Y.stk, Y.names);
    ReachesSelf(G, Entered(X1, o + 12));
    ReachesStep(G, Entered(Y, o + 6), Entered(X1, o + 12));
  }

  /** The ends of the body that are left, after what is done has been refused. */
  lemma {:induction false} RoundsTry(G: Ctx, b: Pat, o: int, Y: Frame, r: int, st: State, outs: seq<Out>, hangs: bool,
                                     done: Tried, n: nat)
    requires AtRound(G, b, o, Y, r) && Within(outs, Y.c, G.subj)
    requires Tries(G, st, BodyFrame(b, G.subj, o, Y, r), Tried(outs, hangs), n)
    requires !done.hangs && AllRefused(G, Y, done.outs)
    requires FullLoop(b, G.subj, Y.c) == Joined(done, FullRounds(b, G.subj, Y.c, outs, hangs))
    ensures Tries(G, st, Y, FullRounds(b, G.subj, Y.c, outs, hangs), n)
    decreases b, 7, |G.subj| - Y.c, n, |outs|, 2
  {
    hide AtRound, Tries, Part, AllRefused, Joined, FullRound, FullLoop, Refuses, Run, Meets, Goal, BodyFrame;
    assert 0 <= Y.c <= |G.subj| by { AtRoundParts(G, b, o, Y, r); }
    var s, c, X1 := G.subj, Y.c, BodyFrame(b, G.subj, o, Y, r);
    if outs == [] {
      RoundsEnd(G, b, o, Y, r, st, hangs, n);
    } else {
      assert outs[0] in outs;
      var a, more := FullRound(b, s, c, outs[0]), FullRounds(b, s, c, outs[1..], hangs);
      FirstTries(G, b, o, Y, r, st, outs, hangs, done, n);
      if !a.hangs && AllRefused(G, Y, a.outs) {
        DropFirst(G, st, X1, outs, hangs, n);
        JoinedThrice(done, a, more);
        assert !Joined(done, a).hangs && Joined(done, a).outs == done.outs + a.outs by { JoinedBoth(done, a); }
        RefusedSplit(G, Y, done.outs, a.outs);
        RoundsTry(G, b, o, Y, r, st, outs[1..], hangs, Joined(done, a), n);
      }
      Join(G, st, Y, a, more, n);
    }
  }

  lemma AtRoundParts(G: Ctx, b: Pat, o: int, Y: Frame, r: int)
    requires AtRound(G, b, o, Y, r)
    ensures 0 <= Y.c <= |G.subj| && G.full && Y.a == 0
  {
    hide Loop;
  }

  lemma JoinedBoth(x: Tried, y: Tried)
    requires !x.hangs && !y.hangs
    ensures Joined(x, y) == Tried(x.outs + y.outs, false)
  {
  }

  lemma RoundsEnd(G: Ctx, b: Pat, o: int, Y: Frame, r: int, st: State, hangs: bool, n: nat)
    requires AtRound(G, b, o, Y, r) && Tries(G, st, BodyFrame(b, G.subj, o, Y, r), Tried([], hangs), n)
    ensures Tries(G, st, Y, Tried([], hangs), n)
  {
    hide Loop, Run, Reaches, BodyFrame, Failed;
    var X1 := BodyFrame(b, G.subj, o, Y, r);
    if !hangs {
      var f :| Reaches(G, st, Failed(X1, f));
      RoundFails(G, b, o, Y, r, f);
      ReachesTrans(G, st, Failed(X1, f), Failed(Y, f && Y.lenf));
    }
  }

  lemma {:induction false} FirstTries(G: Ctx, b: Pat, o: int, Y: Frame, r: int, st: State, outs: seq<Out>, hangs: bool,
                                      done: Tried, n: nat)
    requires AtRound(G, b, o, Y, r) && Within(outs, Y.c, G.subj) && outs != []
    requires Tries(G, st, BodyFrame(b, G.subj, o, Y, r), Tried(outs, hangs), n)
    requires !done.hangs && AllRefused(G, Y, done.outs)
    requires FullLoop(b, G.subj, Y.c) == Joined(done, FullRounds(b, G.subj, Y.c, outs, hangs))
    ensures outs[0] in outs && 0 <= Y.c
    ensures var a := FullRound(b, G.subj, Y.c, outs[0]);
            && Part(G, st, Y, a, n)
            && (!a.hangs && AllRefused(G, Y, a.outs) ==> Refuses(G, BodyFrame(b, G.subj, o, Y, r), outs[0].end))
    decreases b, 7, |G.subj| - Y.c, n, |outs|, 1
  {
    hide AtRound, AllRefused, Run, Goal, Reaches, Retried, BodyFrame, Refuses, FullLoop, AgainFrame, RoundHist, Part;
    var s, c, X1, first := G.subj, Y.c, BodyFrame(b, G.subj, o, Y, r), outs[0];
    AtRoundParts(G, b, o, Y, r);
    assert first in outs;
    FirstMet(G, st, X1, outs, hangs, n);
    var h :| Reaches(G, st, Goal(X1, first, h));
    var hx := RoundHist(b, o, Y, r, first.end, h);
    RoundAt(G, b, o, Y, r, first, h);
    ReachesTrans(G, st, Goal(X1, first, h), Goal(Y, first, hx));
    if first.end == c {
      NullLast(b, s, c, outs, hangs, done);
      NullRound(G, b, o, Y, r, st, first, h, done, n);
    } else {
      LaterRound(G, b, o, Y, r, st, first, h, n);
    }
  }

  lemma RoundAt(G: Ctx, b: Pat, o: int, Y: Frame, r: int, first: Out, h: seq<Entry>)
    requires AtRound(G, b, o, Y, r) && 0 <= first.end <= |G.subj|
    ensures var X1, hx := BodyFrame(b, G.subj, o, Y, r), RoundHist(b, o, Y, r, first.end, h);
            && Reaches(G, Goal(X1, first, h), Goal(Y, first, hx))
            && forall f :: Reaches(G, Retried(Y, first, hx, f), Entered(AgainFrame(b, o, Y, r, first, h, f), o + 6))
  {
    hide Loop, Reaches, Goal, Retried, BodyFrame, RoundHist, AgainFrame;
    RoundOne(G, b, o, Y, r, first, h);
  }

  lemma NullLast(b: Pat, s: string, c: int, outs: seq<Out>, hangs: bool, done: Tried)
    requires 0 <= c <= |s| && Within(outs, c, s) && outs != [] && outs[0].end == c && !done.hangs
    ensures Joined(done, FullRounds(b, s, c, outs, hangs)) == Tried(done.outs + [outs[0]], true)
  {
    assert outs[0] in outs;
  }

  /** A round that matched null: the same round begins again. */
  lemma {:induction false} NullRound(G: Ctx, b: Pat, o: int, Y: Frame, r: int, st: State, first: Out, h: seq<Entry>,
                                     done: Tried, n: nat)
    requires AtRound(G, b, o, Y, r) && first.end == Y.c && AllRefused(G, Y, done.outs)
    requires 0 <= Y.c <= |G.subj| && FullLoop(b, G.subj, Y.c) == Tried(done.outs + [first], true)
    requires Reaches(G, st, Goal(Y, first, RoundHist(b, o, Y, r, first.end, h)))
    ensures Part(G, st, Y, Tried([first], true), n)
    decreases b, 7, |G.subj| - Y.c, n, 0, 0
  {
    hide AtRound, AllRefused, Run, Reaches, BodyFrame, FullLoop, AgainFrame, RoundHist, Above, Goal, Refuses;
    var hx := RoundHist(b, o, Y, r, first.end, h);
    PartOne(G, st, Y, first, hx, n);
    OneRefused(G, Y, first);
    if AllRefused(G, Y, [first]) {
      AtOnce(G, Y, first, hx);
      var f :| Reaches(G, Goal(Y, first, hx), Retried(Y, first, hx, f));
      var Y2, st1 := AgainFrame(b, o, Y, r, first, h, f), Retried(Y, first, hx, f);
      RoundAt(G, b, o, Y, r, first, h);
      if n > 0 {
        AgainAt(G, b, o, Y, r, first, h, f);
        LoopTries(G, b, o, Y2, r, n - 1);
        AgainAbove(b, o, Y, r, first, h, f);
        var en := Entry(To(o + 21 + Size(b)), first.end, r, f);
        RefusedSplit(G, Y, done.outs, [first]);
        AllAbove(G, Y2, Y, [Entry(To(o + 9), Y.c, r, Y.lenf)] + h + [Entry(To(Y.c), first.end, 0, false)] + [en], first.caps,
                 done.outs + [first], done.outs + [first]);
      }
      HangsAfter(G, st1, Entered(Y2, o + 6), n);
      ReachesTrans(G, st, Goal(Y, first, hx), st1);
      HangsFrom(G, st, st1, n);
    }
  }

  lemma AtOnce(G: Ctx, X: Frame, out: Out, h: seq<Entry>)
    requires Refuses(G, X, out.end)
    ensures Refused(G, X, out, h)
  {
    hide Refused;
  }

  /** A round that consumed something: the next one begins where it ended. */
  lemma {:induction false} LaterRound(G: Ctx, b: Pat, o: int, Y: Frame, r: int, st: State, first: Out, h: seq<Entry>, n: nat)
    requires AtRound(G, b, o, Y, r) && 0 <= Y.c < first.end <= |G.subj|
    requires Reaches(G, st, Goal(Y, first, RoundHist(b, o, Y, r, first.end, h)))
    ensures var a := FullRound(b, G.subj, Y.c, first);
            && Part(G, st, Y, a, n)
            && (!a.hangs && AllRefused(G, Y, a.outs) ==> Refuses(G, BodyFrame(b, G.subj, o, Y, r), first.end))
    decreases b, 7, |G.subj| - Y.c, n, 0, 2
  {
    hide AtRound, AllRefused, Run, Reaches, BodyFrame, FullLoop, AgainFrame, RoundHist, Above, Goal, Retried, Refuses, Offered;
    var hx, e := RoundHist(b, o, Y, r, first.end, h), first.end;
    var one, t := Tried([first], false), FullLoop(b, G.subj, e);
    PartOne(G, st, Y, first, hx, n);
    OneRefused(G, Y, first);
    if Refuses(G, Y, e) {
      AtOnce(G, Y, first, hx);
      var f :| Reaches(G, Goal(Y, first, hx), Retried(Y, first, hx, f));
      var Y2 := AgainFrame(b, o, Y, r, first, h, f);
      RoundAt(G, b, o, Y, r, first, h);
      AgainAt(G, b, o, Y, r, first, h, f);
      LoopTries(G, b, o, Y2, r, n);
      AgainAbove(b, o, Y, r, first, h, f);
      var en := Entry(To(o + 21 + Size(b)), e, r, f);
      PartAbove(G, Entered(Y2, o + 6), Y2, Y, [Entry(To(o + 9), Y.c, r, Y.lenf)] + h + [Entry(To(Y.c), e, 0, false)] + [en],
                first.caps, t, n);
      ReachesTrans(G, st, Goal(Y, first, hx), Retried(Y, first, hx, f));
      ReachesTrans(G, st, Retried(Y, first, hx, f), Entered(Y2, o + 6));
      PartFrom(G, st, Entered(Y2, o + 6), Y, Under(first.caps, t), n);
    }
    JoinPart(G, st, Y, one, Under(first.caps, t), n);
    var a := Joined(one, Under(first.caps, t));
    if !a.hangs && AllRefused(G, Y, a.outs) {
      RefusedSplit(G, Y, [first], Under(first.caps, t).outs);
      BodyRefuses(G, b, o, Y, r, first, n);
    }
  }

  lemma {:induction false} BodyRefuses(G: Ctx, b: Pat, o: int, Y: Frame, r: int, first: Out, n: nat)
    requires AtRound(G, b, o, Y, r) && 0 <= Y.c < first.end <= |G.subj| && Refuses(G, Y, first.end)
    requires var t := FullLoop(b, G.subj, first.end); !t.hangs && AllRefused(G, Y, Under(first.caps, t).outs)
    ensures Refuses(G, BodyFrame(b, G.subj, o, Y, r), first.end)
    decreases b, 7, |G.subj| - Y.c, n, 0, 1
  {
    hide AtRound, AllRefused, Refused, BodyFrame, FullLoop, Under;
    forall out: Out, h | out.end == first.end
      ensures Refused(G, BodyFrame(b, G.subj, o, Y, r), out, h)
    {
      RoundRefused(G, b, o, Y, r, out, h, first.caps, n);
    }
  }

  lemma SitsArbno(G: Ctx, b: Pat, o: int, X: Frame, r: int)
    requires Sits(G, Arbno(b), o, X, r)
    ensures G.full && 0 <= X.c <= |G.subj| && Loop(G, b, o, X.k, r, X.dead) && Has(G.code, o, Node(SCOK, X.a, o + 3, r, r))
  {
    hide Cells, Has, Node, Loop, WellFormed;
    LoopCells(G, b, o, X.k, X.a, r, X.dead);
  }

  /** The surroundings of ARBNO's first round. */
  ghost function FirstFrame(X: Frame, r: int, f: bool): Frame {
    Frame(X.k, 0, X.c, f, X.hist + [Own(X, r)], X.stk, X.names, X.dead, X.mute)
  }

  lemma {:induction false} ArbnoTries(G: Ctx, b: Pat, o: int, X: Frame, r: int, n: nat)
    requires Sits(G, Arbno(b), o, X, r)
    ensures Tries(G, Entered(X, o), X, FullEnds(Arbno(b), G.subj, X.c), n)
    decreases Arbno(b), 0, 0, 0, 0
  {
    hide Sits, Tries, Loop, Has, Node, FullLoop, Refuses, Reaches, Goal, Retried, AllRefused, Part, FirstFrame, Joined;
    var c, st, out := X.c, Entered(X, o), Out(X.c, []);
    SitsArbno(G, b, o, X, r);
    var t, h := FullLoop(b, G.subj, c), [Own(X, r), Entry(To(o + 6), c, r, true)];
    ArbnoOpens(G, b, o, X, r);
    PartOne(G, st, X, out, h, n);
    OneRefused(G, X, out);
    if AllRefused(G, X, [out]) {
      AtOnce(G, X, out, h);
      var f :| Reaches(G, Goal(X, out, h), Retried(X, out, h, f));
      var Y := FirstFrame(X, r, f);
      FirstAt(G, b, o, X, r, f);
      LoopTries(G, b, o, Y, r, n);
      TriesAbove(G, Entered(Y, o + 6), Y, X, [Own(X, r)], t, n);
      ReachesTrans(G, st, Goal(X, out, h), Retried(X, out, h, f));
      ReachesTrans(G, st, Retried(X, out, h, f), Entered(Y, o + 6));
      TriesFrom(G, st, Entered(Y, o + 6), X, t, n);
    }
    Join(G, st, X, Tried([out], false), t, n);
  }

  /** The null match, and what its refusal leads to. */
  lemma ArbnoOpens(G: Ctx, b: Pat, o: int, X: Frame, r: int)
    requires G.full && 0 <= X.c <= |G.subj| && Loop(G, b, o, X.k, r, X.dead) && Has(G.code, o, Node(SCOK, X.a, o + 3, r, r))
    ensures var out, h := Out(X.c, []), [Own(X, r), Entry(To(o + 6), X.c, r, true)];
            && Reaches(G, Entered(X, o), Goal(X, out, h))
            && forall f :: Reaches(G, Retried(X, out, h, f), Entered(FirstFrame(X, r, f), o + 6))
  {
    hide Loop, Has, Node, Step, Reaches;
    var c, h1, e3 := X.c, X.hist + [Own(X, r)], Entry(To(o + 6), X.c, r, true);
    var out, h := Out(c, []), [Own(X, r), e3];
    LoopNodes(G, b, o, X.k, r, X.dead);
    NodeStep(G, o, SCOK, X.a, o + 3, r, r, c, X.lenf, X.hist, X.stk, X.names);
    NodeStep(G, o + 3, SCOK, o + 6, X.k, r, r, c, true, h1, X.stk, X.names);
    assert h1 + [e3] == X.hist + h && X.names + [] == X.names;
    ReachesSelf(G, Goal(X, out, h));
    ReachesStep(G, Scan(o + 3, c, true, h1, X.stk, X.names), Goal(X, out, h));
    ReachesStep(G, Entered(X, o), Goal(X, out, h));
    forall f
      ensures Reaches(G, Retried(X, out, h, f), Entered(FirstFrame(X, r, f), o + 6))
    {
      PopTo(G, f, h1, e3, X.stk, X.names);
      ReachesSelf(G, Entered(FirstFrame(X, r, f), o + 6));
      ReachesStep(G, Retried(X, out, h, f), Entered(FirstFrame(X, r, f), o + 6));
    }
  }

  lemma FirstAt(G: Ctx, b: Pat, o: int, X: Frame, r: int, f: bool)
    requires G.full && Loop(G, b, o, X.k, r, X.dead) && 0 <= X.c <= |G.subj|
    ensures AtRound(G, b, o, FirstFrame(X, r, f), r) && FirstFrame(X, r, f).c == X.c
    ensures Above(FirstFrame(X, r, f), X, [Own(X, r)], []) && FailsInto(G, FirstFrame(X, r, f), X)
  {
    hide Loop, Reaches;
    forall b
      ensures MayEnd(G, Failed(FirstFrame(X, r, f), b), X)
    {
      PopOwn(G, X, r, b);
    }
  }

  // -------------------------------------------------------------- the main lemma

  /** FULLSCAN, for every pattern: what is listed is offered in order, each end
      once those before it have been refused; when all have been, the fragment
      fails, or goes on for ever, as is said. */
  lemma {:induction false} FullCorrect(G: Ctx, p: Pat, o: int, X: Frame, r: int, n: nat)
    requires Sits(G, p, o, X, r)
    ensures Tries(G, Entered(X, o), X, FullEnds(p, G.subj, X.c), n)
    decreases p, 2, 0, 0, 0
  {
    hide *;
    match p
    case Alt(x, y) => AltTries(G, x, y, o, X, r, n);
    case Cat(x, y) => CatTries(G, x, y, o, X, r, n);
    case Arbno(b) => ArbnoTries(G, b, o, X, r, n);
    case Capture(b, name) => CaptureTries(G, b, name, o, X, r, n);
    case _ => BaseTries(G, p, o, X, r, n);
  }
}
