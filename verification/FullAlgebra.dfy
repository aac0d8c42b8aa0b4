/** What FULLSCAN tries.  It repeats the body of an ARBNO even after a round
    that matched null, so from there it only tries again, for ever, what it has
    tried before. */
module FullAlgebra {
  import opened PatternAlgebra

  /** The ways of matching that are tried, in order; and whether, when all have
      been tried, the scan goes round and round instead of failing. */
  datatype Tried = Tried(outs: seq<Out>, hangs: bool)

  /** What comes second is reached only if the first part can fail. */
  function Joined(x: Tried, y: Tried): Tried {
    if x.hangs then x else Tried(x.outs + y.outs, y.hangs)
  }

  function Under(caps: seq<Cap>, t: Tried): Tried {
    Tried(Prefixed(caps, t.outs), t.hangs)
  }

  ghost predicate Within(outs: seq<Out>, c: int, s: string) {
    forall o :: o in outs ==> 0 <= c <= o.end <= |s|
  }

  ghost function FullEnds(p: Pat, s: string, c: int): (t: Tried)
    requires 0 <= c <= |s|
    ensures Within(t.outs, c, s)
    decreases p, |s| - c, 3
  {
    match p
    case Alt(x, y) => Joined(FullEnds(x, s, c), FullEnds(y, s, c))
    case Cat(x, y) =>
      var t := FullEnds(x, s, c);
      FullCat(y, s, c, t.outs, t.hangs)
    case Arbno(b) => Joined(Tried([Out(c, [])], false), FullLoop(b, s, c))
    case Capture(b, name) =>
      var t := FullEnds(b, s, c);
      CapturedWithin(name, c, t.outs, s);
      Tried(Captured(name, c, t.outs), t.hangs)
    case _ => Tried(Ends(p, s, c), false)
  }

  ghost function FullCat(y: Pat, s: string, c: int, outs: seq<Out>, hangs: bool): (t: Tried)
    requires Within(outs, c, s)
    ensures Within(t.outs, c, s)
    decreases y, |s| + 1, |outs|
  {
    if outs == [] then Tried([], hangs)
    else
      assert outs[0] in outs;
      PrefixedWithin(outs[0].caps, FullEnds(y, s, outs[0].end).outs, outs[0].end, s);
      Joined(Under(outs[0].caps, FullEnds(y, s, outs[0].end)), FullCat(y, s, c, outs[1..], hangs))
  }

  /** A round of b at c, and the rounds after it. */
  ghost function FullLoop(b: Pat, s: string, c: int): (t: Tried)
    requires 0 <= c <= |s|
    ensures Within(t.outs, c, s)
    decreases b, |s| - c, 6
  {
    var t := FullEnds(b, s, c);
    FullRounds(b, s, c, t.outs, t.hangs)
  }

  ghost function FullRounds(b: Pat, s: string, c: int, outs: seq<Out>, hangs: bool): (t: Tried)
    requires Within(outs, c, s)
    ensures Within(t.outs, c, s)
    decreases b, |s| - c, 5, |outs|
  {
    if outs == [] then Tried([], hangs)
    else
      assert outs[0] in outs;
      Joined(FullRound(b, s, c, outs[0]), FullRounds(b, s, c, outs[1..], hangs))
  }

  /** A round that matched null is followed by the same round again. */
  ghost function FullRound(b: Pat, s: string, c: int, first: Out): (t: Tried)
    requires 0 <= c <= first.end <= |s|
    ensures Within(t.outs, c, s)
    decreases b, |s| - c, 4
  {
    if first.end == c then Tried([first], true)
    else
      PrefixedWithin(first.caps, FullLoop(b, s, first.end).outs, first.end, s);
      Joined(Tried([first], false), Under(first.caps, FullLoop(b, s, first.end)))
  }

  lemma PrefixedWithin(caps: seq<Cap>, outs: seq<Out>, c: int, s: string)
    requires Within(outs, c, s)
    ensures Within(Prefixed(caps, outs), c, s)
  {
    var more := Prefixed(caps, outs);
    forall o | o in more
      ensures 0 <= c <= o.end <= |s|
    {
      var i :| 0 <= i < |more| && more[i] == o;
      assert outs[i] in outs;
    }
  }

  lemma CapturedWithin(name: string, c: int, outs: seq<Out>, s: string)
    requires Within(outs, c, s)
    ensures Within(Captured(name, c, outs), c, s)
  {
    var more := Captured(name, c, outs);
    forall o | o in more
      ensures 0 <= c <= o.end <= |s|
    {
      var i :| 0 <= i < |more| && more[i] == o;
      assert outs[i] in outs;
    }
  }

  // ------------------------------------------------- compared with the algebra

  /** t tries the beginning of outs and, if it does not hang, all of it. */
  ghost predicate Begins(t: Tried, outs: seq<Out>) {
    t.outs <= outs && (!t.hangs ==> t.outs == outs)
  }

  lemma BeginsJoined(x: Tried, y: Tried, a: seq<Out>, b: seq<Out>)
    requires Begins(x, a) && Begins(y, b)
    ensures Begins(Joined(x, y), a + b)
  {
  }

  lemma BeginsUnder(caps: seq<Cap>, t: Tried, outs: seq<Out>)
    requires Begins(t, outs)
    ensures Begins(Under(caps, t), Prefixed(caps, outs))
  {
  }

  /** FULLSCAN tries a beginning of what the algebra lists, and all of it if it
      does not hang. */
  lemma {:induction false} FullBegins(p: Pat, s: string, c: int)
    requires 0 <= c <= |s|
    ensures Begins(FullEnds(p, s, c), Ends(p, s, c))
    decreases p, |s| - c, 3
  {
    hide Begins, Joined, FullCat, FullLoop, CatEnds, LoopEnds, BalEnds, ArbEnds, LeafEnd, Captured;
    match p
    case Alt(x, y) =>
      FullBegins(x, s, c);
      FullBegins(y, s, c);
      BeginsJoined(FullEnds(x, s, c), FullEnds(y, s, c), Ends(x, s, c), Ends(y, s, c));
    case Cat(x, y) =>
      FullBegins(x, s, c);
      EndsCat(x, y, s, c);
      var t := FullEnds(x, s, c);
      CatBegins(y, s, c, c + MinLen(x), t.outs, t.hangs, Ends(x, s, c));
    case Arbno(b) =>
      LoopBegins(b, s, c);
      BeginsAll([Out(c, [])]);
      BeginsJoined(Tried([Out(c, [])], false), FullLoop(b, s, c), [Out(c, [])], LoopEnds(b, s, c));
    case Capture(b, name) =>
      FullBegins(b, s, c);
      CapturedBegins(name, c, FullEnds(b, s, c), Ends(b, s, c));
    case _ => BeginsAll(Ends(p, s, c));
  }

  lemma BeginsAll(outs: seq<Out>)
    ensures Begins(Tried(outs, false), outs)
  {
  }

  lemma CapturedBegins(name: string, c: int, t: Tried, outs: seq<Out>)
    requires Begins(t, outs)
    ensures Begins(Tried(Captured(name, c, t.outs), t.hangs), Captured(name, c, outs))
  {
    CapturedPart(name, c, t.outs, outs);
  }

  lemma {:induction false} CapturedPart(name: string, c: int, a: seq<Out>, outs: seq<Out>)
    requires a <= outs
    ensures Captured(name, c, a) <= Captured(name, c, outs)
    decreases |a|
  {
    if a != [] {
      CapturedPart(name, c, a[1..], outs[1..]);
    }
  }

  lemma {:induction false} CatBegins(y: Pat, s: string, c: int, lo: int, a: seq<Out>, hangs: bool, outs: seq<Out>)
    requires Within(a, c, s) && Begins(Tried(a, hangs), outs) && forall o :: o in outs ==> 0 <= lo <= o.end <= |s|
    ensures Begins(FullCat(y, s, c, a, hangs), CatEnds(y, s, outs, lo))
    decreases y, |s| + 1, |a|
  {
    hide Joined, Under, FullEnds, Ends;
    if a != [] {
      var first := a[0];
      assert first in a && first == outs[0] && first in outs && a[1..] <= outs[1..];
      FullBegins(y, s, first.end);
      BeginsUnder(first.caps, FullEnds(y, s, first.end), Ends(y, s, first.end));
      CatBegins(y, s, c, lo, a[1..], hangs, outs[1..]);
      BeginsJoined(Under(first.caps, FullEnds(y, s, first.end)), FullCat(y, s, c, a[1..], hangs),
                   Prefixed(first.caps, Ends(y, s, first.end)), CatEnds(y, s, outs[1..], lo));
    }
  }

  lemma {:induction false} LoopBegins(b: Pat, s: string, c: int)
    requires 0 <= c <= |s|
    ensures Begins(FullLoop(b, s, c), LoopEnds(b, s, c))
    decreases b, |s| - c, 6
  {
    hide FullEnds, Ends, FullRounds, MoreEnds;
    FullBegins(b, s, c);
    var t := FullEnds(b, s, c);
    RoundsBegin(b, s, c, t.outs, t.hangs, Ends(b, s, c));
  }

  lemma {:induction false} RoundsBegin(b: Pat, s: string, c: int, a: seq<Out>, hangs: bool, outs: seq<Out>)
    requires 0 <= c <= |s| && Within(a, c, s) && Begins(Tried(a, hangs), outs)
    ensures Begins(FullRounds(b, s, c, a, hangs), MoreEnds(b, s, c, outs))
    decreases b, |s| - c, 5, |a|
  {
    hide Joined, FullRound, RoundEnds, FullLoop, LoopEnds;
    if a != [] {
      var first := a[0];
      assert first in a && first == outs[0] && a[1..] <= outs[1..];
      RoundBegins(b, s, c, first);
      RoundsBegin(b, s, c, a[1..], hangs, outs[1..]);
      BeginsJoined(FullRound(b, s, c, first), FullRounds(b, s, c, a[1..], hangs),
                   RoundEnds(b, s, c, first), MoreEnds(b, s, c, outs[1..]));
    }
  }

  lemma {:induction false} RoundBegins(b: Pat, s: string, c: int, first: Out)
    requires 0 <= c <= first.end <= |s|
    ensures Begins(FullRound(b, s, c, first), RoundEnds(b, s, c, first))
    decreases b, |s| - c, 4
  {
    hide FullLoop, LoopEnds;
    assert first.caps + [] == first.caps;
    if first.end > c {
      LoopBegins(b, s, first.end);
      BeginsUnder(first.caps, FullLoop(b, s, first.end), LoopEnds(b, s, first.end));
    }
  }

  // ---------------------------------------------------------- when it can stop

  /** FULLSCAN of s from its start comes to an end. */
  ghost predicate Stops(p: Pat, s: string) {
    var t := FullEnds(p, s, 0);
    t.outs != [] || !t.hangs
  }

  /** And then with the first end of the algebra, if there is one. */
  lemma StopsFirst(p: Pat, s: string)
    requires Stops(p, s)
    ensures var t := FullEnds(p, s, 0);
            if Ends(p, s, 0) == [] then t.outs == [] && !t.hangs else t.outs != [] && t.outs[0] == Ends(p, s, 0)[0]
  {
    hide FullEnds, Ends;
    FullBegins(p, s, 0);
  }
}
