/** Whole scans.  An anchored scan ends with the first end of the pattern
    algebra, or fails when there is none, in both scanning modes. */
module PatternTheorems {
  import opened PatternAlgebra
  import opened PatternCode
  import opened PatternBuild
  import opened PatternMachine
  import opened PatternProof
  import opened PatternCorrect
  import opened FullAlgebra
  import opened FullScan

  /** What an anchored scan starts with: the pattern's first node, over a trap
      that makes the whole match fail. */
  ghost function Start(trap: Entry, stk: seq<int>, names: seq<Cap>): State {
    Scan(0, 0, true, [trap], stk, names)
  }

  /** The answer that the pattern algebra gives. */
  ghost predicate Answer(st: State, p: Pat, s: string, stk: seq<int>, names: seq<Cap>) {
    var ends := Ends(p, s, 0);
    if ends == [] then st == Reject(stk, names)
    else st.Accept? && st.cur == ends[0].end && st.stk == stk && st.names == names + ends[0].caps
  }

  /** A scan stops with the algebra's answer: the first end, with the captures
      of that path only, or failure with the name list as it was; the system
      stack is back at its entry height.  In QUICKSCAN it always stops. */
  lemma ScanAnswers(G: Ctx, p: Pat, trap: Entry, stk: seq<int>, names: seq<Cap>) returns (n: nat)
    requires G.code == Block(p) && WellFormed(p) && (G.full ==> Stops(p, G.subj))
    requires trap.link == Trap(SCFL)
    ensures Answer(Run(G, Start(trap, stk, names), n), p, G.subj, stk, names)
    ensures Final(Run(G, Start(trap, stk, names), n))
  {
    if G.full {
      n := FullAnswers(G, p, trap, stk, names);
    } else {
      n := QuickAnswers(G, p, trap, stk, names);
    }
  }

  lemma QuickAnswers(G: Ctx, p: Pat, trap: Entry, stk: seq<int>, names: seq<Cap>) returns (n: nat)
    requires G.code == Block(p) && WellFormed(p) && !G.full && trap.link == Trap(SCFL)
    ensures Answer(Run(G, Start(trap, stk, names), n), p, G.subj, stk, names)
    ensures Final(Run(G, Start(trap, stk, names), n))
  {
    var s := G.subj;
    var dead := e => e > |s|;
    var X := Frame(0, 0, 0, true, [trap], stk, names, dead, Later(p, s, 0, dead));
    var start, ends := Start(trap, stk, names), Ends(p, s, 0);
    WholePlaced(G, p, X);
    Correct(G, p, 0, X, 0);
    if ends == [] {
      n := NothingLeft(G, start, X);
    } else {
      EndsBound(p, s, 0, ends[0]);
      n := FirstOffer(G, start, X, ends);
    }
  }

  /** The surroundings of a whole pattern. */
  ghost function Whole(trap: Entry, stk: seq<int>, names: seq<Cap>): Frame {
    Frame(0, 0, 0, true, [trap], stk, names, e => true, false)
  }

  lemma WholeTries(G: Ctx, p: Pat, trap: Entry, stk: seq<int>, names: seq<Cap>, n: nat)
    requires G.code == Block(p) && WellFormed(p) && G.full
    ensures Tries(G, Start(trap, stk, names), Whole(trap, stk, names), FullEnds(p, G.subj, 0), n)
  {
    hide Cells, Size, Block, WellFormed, Tries, FullEnds;
    var X := Whole(trap, stk, names);
    BlockParts(p);
    assert G.code == [Title(Size(p))] + Cells(p, 0, 0, 0, 0) + [];
    InFront(G.code, Title(Size(p)), Cells(p, 0, 0, 0, 0), []);
    assert Sits(G, p, 0, X, 0);
    FullCorrect(G, p, 0, X, 0, n);
    assert Entered(X, 0) == Start(trap, stk, names);
  }

  lemma FullAnswers(G: Ctx, p: Pat, trap: Entry, stk: seq<int>, names: seq<Cap>) returns (n: nat)
    requires G.code == Block(p) && WellFormed(p) && G.full && trap.link == Trap(SCFL) && Stops(p, G.subj)
    ensures Answer(Run(G, Start(trap, stk, names), n), p, G.subj, stk, names)
    ensures Final(Run(G, Start(trap, stk, names), n))
  {
    hide Ends, FullEnds, Refuses, Run, Block, WellFormed, Step;
    var X, start, t := Whole(trap, stk, names), Start(trap, stk, names), FullEnds(p, G.subj, 0);
    WholeTries(G, p, trap, stk, names, 0);
    StopsFirst(p, G.subj);
    if t.outs == [] {
      var b :| Reaches(G, start, Failed(X, b));
      var m: nat :| Run(G, start, m) == Failed(X, b);
      RunLast(G, start, m);
      LastTrap(G, b, trap, stk, names);
      n := m + 1;
    } else {
      FirstMet(G, start, X, t.outs, t.hangs, 0);
      var h :| Reaches(G, start, Goal(X, t.outs[0], h));
      n :| Run(G, start, n) == Goal(X, t.outs[0], h);
    }
  }

  lemma LastTrap(G: Ctx, b: bool, trap: Entry, stk: seq<int>, names: seq<Cap>)
    requires trap.link == Trap(SCFL)
    ensures Step(G, Failed(Whole(trap, stk, names), b)) == Reject(stk, names)
  {
  }

  /** When FULLSCAN stops: exactly when something is tried, or nothing is and it
      does not hang.  The answer is then that of the algebra. */
  lemma FullscanStops(p: Pat, s: string, trap: Entry, stk: seq<int>, names: seq<Cap>)
    requires WellFormed(p) && trap.link == Trap(SCFL)
    ensures var G := Ctx(Block(p), s, true);
            (exists n: nat :: Final(Run(G, Start(trap, stk, names), n))) <==> Stops(p, s)
    ensures var G := Ctx(Block(p), s, true);
            forall n: nat :: Final(Run(G, Start(trap, stk, names), n)) ==>
                             Answer(Run(G, Start(trap, stk, names), n), p, s, stk, names)
  {
    hide *;
    var G, start := Ctx(Block(p), s, true), Start(trap, stk, names);
    if Stops(p, s) {
      var m := ScanAnswers(G, p, trap, stk, names);
      assert Final(Run(G, start, m));
      forall n: nat | Final(Run(G, start, n))
        ensures Answer(Run(G, start, n), p, s, stk, names)
      {
        if m <= n { RunFinal(G, start, m, n); } else { RunFinal(G, start, n, m); }
      }
    } else {
      forall n: nat
        ensures !Final(Run(G, start, n))
      {
        Hangs(G, p, trap, stk, names, n);
      }
    }
  }

  lemma Hangs(G: Ctx, p: Pat, trap: Entry, stk: seq<int>, names: seq<Cap>, n: nat)
    requires G.code == Block(p) && WellFormed(p) && G.full && !Stops(p, G.subj)
    ensures !Final(Run(G, Start(trap, stk, names), n))
  {
    hide FullEnds, Refuses, Run, Block, WellFormed, Start, Whole, Offered;
    WholeTries(G, p, trap, stk, names, n);
    assert AllRefused(G, Whole(trap, stk, names), []);
  }

  lemma WholePlaced(G: Ctx, p: Pat, X: Frame)
    requires G.code == Block(p) && WellFormed(p) && !G.full
    requires X.k == 0 && X.a == 0 && X.c == 0 && X.dead == (e => e > |G.subj|)
    requires X.mute == Later(p, G.subj, 0, X.dead)
    ensures Stands(G, p, 0, X, 0)
  {
    hide Cells, Size, Block, Later, WellFormed, Productive;
    BlockParts(p);
    assert G.code == [Title(Size(p))] + Cells(p, 0, 0, 0, 0) + [];
    InFront(G.code, Title(Size(p)), Cells(p, 0, 0, 0, 0), []);
    assert Residual(G, 0, X.dead);
  }

  lemma NothingLeft(G: Ctx, start: State, X: Frame) returns (n: nat)
    requires Offers(G, start, X, []) && X.a == 0 && |X.hist| == 1 && X.hist[0].link == Trap(SCFL)
    ensures Run(G, start, n) == Reject(X.stk, X.names)
  {
    var b :| MayFail(G, X, b) && Reaches(G, start, Failed(X, b));
    var m: nat :| Run(G, start, m) == Failed(X, b);
    RunLast(G, start, m);
    n := m + 1;
  }

  lemma FirstOffer(G: Ctx, start: State, X: Frame, outs: seq<Out>) returns (n: nat)
    requires outs != [] && Offers(G, start, X, outs) && !X.dead(outs[0].end) && X.k == 0
    ensures var st := Run(G, start, n);
            st.Accept? && st.cur == outs[0].end && st.stk == X.stk && st.names == X.names + outs[0].caps
  {
    var h :| OffersFirst(G, start, X, outs, h);
    n :| Run(G, start, n) == Goal(X, outs[0], h);
  }

  /** QUICKSCAN loses nothing: both modes give the same answer, if FULLSCAN
      gives one. */
  lemma QuickscanLosesNothing(p: Pat, s: string, trap: Entry, stk: seq<int>, names: seq<Cap>) returns (m: nat, n: nat)
    requires WellFormed(p) && Stops(p, s) && trap.link == Trap(SCFL)
    ensures var quick := Run(Ctx(Block(p), s, false), Start(trap, stk, names), m);
            var full := Run(Ctx(Block(p), s, true), Start(trap, stk, names), n);
            && Final(quick) && Final(full) && quick.Accept? == full.Accept? && quick.Reject? == full.Reject?
            && (quick.Accept? ==> quick.cur == full.cur && quick.names == full.names && quick.stk == full.stk)
            && (quick.Reject? ==> quick == full)
  {
    m := ScanAnswers(Ctx(Block(p), s, false), p, trap, stk, names);
    n := ScanAnswers(Ctx(Block(p), s, true), p, trap, stk, names);
  }

  /** A subject shorter than a pattern's stored need cannot match. */
  lemma TooShortToMatch(p: Pat, s: string)
    requires MinLen(p) > |s|
    ensures Ends(p, s, 0) == []
  {
    hide Ends, MinLen;
    var ends := Ends(p, s, 0);
    if ends != [] {
      EndsBound(p, s, 0, ends[0]);
      assert false;
    }
  }

  lemma {:induction false} RunFinal(G: Ctx, st: State, m: nat, n: nat)
    requires Final(Run(G, st, m)) && m <= n
    ensures Run(G, st, n) == Run(G, st, m)
    decreases n
  {
    hide Step;
    if m < n {
      RunFinal(G, st, m, n - 1);
      RunLast(G, st, n - 1);
      FinalStays(G, Run(G, st, n - 1));
    }
  }

  /** The shape of p shows that it never matches null. */
  predicate NeverNull(p: Pat) {
    match p
    case Bal => true
    case Alt(x, y) => NeverNull(x) && NeverNull(y)
    case Cat(x, y) => NeverNull(x) || NeverNull(y)
    case Capture(b, _) => NeverNull(b)
    case _ => MinLen(p) > 0
  }

  /** Every ARBNO in p has such a body. */
  predicate Repeatable(p: Pat) {
    match p
    case Alt(x, y) => Repeatable(x) && Repeatable(y)
    case Cat(x, y) => Repeatable(x) && Repeatable(y)
    case Arbno(b) => Repeatable(b) && NeverNull(b)
    case Capture(b, _) => Repeatable(b)
    case _ => true
  }

  lemma {:induction false} NeverNullEnds(p: Pat, s: string, c: int, o: Out)
    requires NeverNull(p) && 0 <= c <= |s| && o in Ends(p, s, c)
    ensures c < o.end <= |s|
    decreases p, 1, 0
  {
    EndsBound(p, s, c, o);
    match p
    case Bal =>
    case Alt(x, y) =>
      EndsAlt(x, y, s, c);
      if o in Ends(x, s, c) { NeverNullEnds(x, s, c, o); } else { NeverNullEnds(y, s, c, o); }
    case Cat(x, y) =>
      EndsCat(x, y, s, c);
      NeverNullCat(x, y, s, c, Ends(x, s, c), o);
    case Capture(b, name) =>
      EndsCapture(b, name, s, c);
      var i :| 0 <= i < |Ends(p, s, c)| && Ends(p, s, c)[i] == o;
      NeverNullEnds(b, s, c, Ends(b, s, c)[i]);
    case _ =>
  }

  lemma {:induction false} NeverNullCat(x: Pat, y: Pat, s: string, c: int, outs: seq<Out>, o: Out)
    requires NeverNull(Cat(x, y)) && 0 <= c <= |s| && forall u :: u in outs ==> u in Ends(x, s, c)
    requires forall u :: u in outs ==> 0 <= c + MinLen(x) <= u.end <= |s|
    requires o in CatEnds(y, s, outs, c + MinLen(x))
    ensures c < o.end
    decreases Cat(x, y), 0, |outs|
  {
    var u := outs[0];
    var here := Prefixed(u.caps, Ends(y, s, u.end));
    if o in here {
      var i :| 0 <= i < |here| && here[i] == o;
      var v := Ends(y, s, u.end)[i];
      EndsBound(x, s, c, u);
      EndsBound(y, s, u.end, v);
      if NeverNull(x) { NeverNullEnds(x, s, c, u); } else { NeverNullEnds(y, s, u.end, v); }
    } else {
      NeverNullCat(x, y, s, c, outs[1..], o);
    }
  }

  /** The shape shows that every ARBNO body consumes something. */
  lemma {:induction false} RepeatableProductive(p: Pat, s: string)
    requires Repeatable(p)
    ensures Productive(p, s)
  {
    match p
    case Alt(x, y) => RepeatableProductive(x, s); RepeatableProductive(y, s);
    case Cat(x, y) => RepeatableProductive(x, s); RepeatableProductive(y, s);
    case Arbno(b) =>
      RepeatableProductive(b, s);
      forall c, o | 0 <= c <= |s| && o in Ends(b, s, c)
        ensures c < o.end
      {
        NeverNullEnds(b, s, c, o);
      }
    case Capture(b, _) => RepeatableProductive(b, s);
    case _ =>
  }

  /** Where every ARBNO body consumes something FULLSCAN never hangs. */
  lemma {:induction false} ProductiveTries(p: Pat, s: string, c: int)
    requires Productive(p, s) && 0 <= c <= |s|
    ensures FullEnds(p, s, c) == Tried(Ends(p, s, c), false)
    decreases p, |s| - c, 3
  {
    hide Ends, FullCat, FullLoop, Consumes;
    FullBegins(p, s, c);
    match p
    case Alt(x, y) =>
      ProductiveTries(x, s, c);
      ProductiveTries(y, s, c);
    case Cat(x, y) =>
      ProductiveTries(x, s, c);
      var t := FullEnds(x, s, c);
      ProductiveCat(y, s, c, t.outs);
    case Arbno(b) => ProductiveLoop(b, s, c);
    case Capture(b, _) => ProductiveTries(b, s, c);
    case _ =>
  }

  lemma {:induction false} ProductiveCat(y: Pat, s: string, c: int, outs: seq<Out>)
    requires Productive(y, s) && Within(outs, c, s)
    ensures !FullCat(y, s, c, outs, false).hangs
    decreases y, |s| + 1, |outs|
  {
    hide FullEnds, Ends, Productive;
    if outs != [] {
      assert outs[0] in outs;
      ProductiveTries(y, s, outs[0].end);
      ProductiveCat(y, s, c, outs[1..]);
    }
  }

  lemma {:induction false} ProductiveLoop(b: Pat, s: string, c: int)
    requires Productive(b, s) && Consumes(b, s) && 0 <= c <= |s|
    ensures !FullLoop(b, s, c).hangs
    decreases b, |s| - c, 6
  {
    hide FullEnds, Ends, Productive, FullRounds;
    ProductiveTries(b, s, c);
    ProductiveRounds(b, s, c, Ends(b, s, c));
  }

  lemma {:induction false} ProductiveRounds(b: Pat, s: string, c: int, outs: seq<Out>)
    requires Productive(b, s) && Consumes(b, s) && Within(outs, c, s) && 0 <= c <= |s| && forall o :: o in outs ==> c < o.end
    ensures !FullRounds(b, s, c, outs, false).hangs
    decreases b, |s| - c, 5, |outs|
  {
    hide FullLoop, Ends, Productive, Consumes;
    if outs != [] {
      assert outs[0] in outs;
      ProductiveLoop(b, s, outs[0].end);
      ProductiveRounds(b, s, c, outs[1..]);
    }
  }

  /** So such a shape is enough for FULLSCAN to stop. */
  lemma RepeatableStops(p: Pat, s: string)
    requires Repeatable(p)
    ensures Stops(p, s)
  {
    hide FullEnds, Productive, Repeatable, Ends;
    RepeatableProductive(p, s);
    ProductiveTries(p, s, 0);
  }
}
