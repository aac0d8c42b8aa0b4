/** What the algebra's lists mean: the ends of every kind of pattern, without
    the functions that list them. */
module PatternMeaning {
  import opened PatternAlgebra

  // ------------------------------------------------------------------- balance

  /** Characters other than parentheses, and balanced texts in parentheses. */
  datatype Text = Empty | Plain(c: char, rest: Text) | Group(inside: Text, rest: Text)

  function Spell(t: Text): (s: string)
  {
    match t
    case Empty => ""
    case Plain(c, rest) => [c] + Spell(rest)
    case Group(inside, rest) => "(" + Spell(inside) + ")" + Spell(rest)
  }

  predicate Proper(t: Text) {
    match t
    case Empty => true
    case Plain(c, rest) => c != '(' && c != ')' && Proper(rest)
    case Group(inside, rest) => Proper(inside) && Proper(rest)
  }

  /** Depth counts: the opening parentheses less the closing ones. */
  lemma {:induction false} DepthCounts(s: string, i: int, j: int)
    requires 0 <= i <= j <= |s|
    ensures Depth(s, i, j) == multiset(s[i..j])['('] as int - multiset(s[i..j])[')'] as int
    decreases j - i
  {
    if i < j {
      DepthCounts(s, i, j - 1);
      assert s[i..j] == s[i..j - 1] + [s[j - 1]];
    }
  }

  /** As many opening as closing parentheses, and nowhere before more closing
      than opening ones. */
  ghost predicate Paired(s: string, i: int, j: int)
    requires 0 <= i && j <= |s|
  {
    && i < j && multiset(s[i..j])['('] == multiset(s[i..j])[')']
    && forall k :: i <= k <= j ==> multiset(s[i..k])['('] >= multiset(s[i..k])[')']
  }

  /** That is balance. */
  lemma BalancedCounts(s: string, i: int, j: int)
    requires 0 <= i && j <= |s|
    ensures Balanced(s, i, j) <==>
              && i < j && multiset(s[i..j])['('] == multiset(s[i..j])[')']
              && forall k :: i <= k <= j ==> multiset(s[i..k])['('] >= multiset(s[i..k])[')']
  {
    forall k | i <= k <= j
      ensures Depth(s, i, k) == multiset(s[i..k])['('] as int - multiset(s[i..k])[')'] as int
    {
      DepthCounts(s, i, k);
    }
  }

  lemma {:induction false} DepthSum(s: string, i: int, k: int, j: int)
    requires 0 <= i <= k <= j <= |s|
    ensures Depth(s, i, j) == Depth(s, i, k) + Depth(s, k, j)
    decreases j - k
  {
    if k < j {
      DepthSum(s, i, k, j - 1);
    }
  }

  /** No more closing than opening parentheses anywhere, and as many in all. */
  ghost predicate Nested(s: string, i: int, j: int)
    requires 0 <= i <= j <= |s|
  {
    Depth(s, i, j) == 0 && forall k :: i <= k <= j ==> Depth(s, i, k) >= 0
  }

  lemma {:induction false} ProperNested(s: string, i: int, j: int, t: Text)
    requires 0 <= i <= j <= |s| && Proper(t) && Spell(t) == s[i..j]
    ensures Nested(s, i, j)
    decreases t
  {
    match t
    case Empty =>
    case Plain(c, rest) =>
      assert s[i..j] == [s[i]] + s[i + 1..j] && s[i..j][0] == s[i];
      assert Spell(t)[1..] == Spell(rest) && s[i..j][1..] == s[i + 1..j];
      ProperNested(s, i + 1, j, rest);
      NestedBehind(s, i, i + 1, j);
    case Group(inside, rest) =>
      var k := i + |Spell(inside)| + 2;
      GroupSpelled(s, i, j, Spell(inside), Spell(rest));
      ProperNested(s, i + 1, k - 1, inside);
      ProperNested(s, k, j, rest);
      NestedGroup(s, i, k);
      NestedBehind(s, i, k, j);
  }

  lemma GroupSpelled(s: string, i: int, j: int, inside: string, rest: string)
    requires 0 <= i <= j <= |s| && s[i..j] == "(" + inside + ")" + rest
    ensures var k := i + |inside| + 2;
            i + 1 < k <= j && s[i] == '(' && s[k - 1] == ')' && s[i + 1..k - 1] == inside && s[k..j] == rest
  {
    var n, w := |inside|, s[i..j];
    assert w[0] == '(' && w[1..n + 1] == inside && w[n + 1] == ')' && w[n + 2..] == rest;
    assert s[i] == w[0] && s[i + n + 1] == w[n + 1] && |w| == j - i;
    Slice(s, i, j, 1, n + 1);
    Slice(s, i, j, n + 2, j - i);
  }

  lemma Slice(s: string, i: int, j: int, a: int, b: int)
    requires 0 <= i <= j <= |s| && 0 <= a <= b <= j - i
    ensures s[i..j][a..b] == s[i + a..i + b]
  {
    var u, v := s[i..j][a..b], s[i + a..i + b];
    assert |u| == |v| && forall k :: 0 <= k < |u| ==> u[k] == v[k];
  }

  lemma NestedGroup(s: string, i: int, k: int)
    requires 0 <= i && i + 2 <= k <= |s| && s[i] == '(' && s[k - 1] == ')' && Nested(s, i + 1, k - 1)
    ensures Nested(s, i, k)
  {
    forall m | i <= m <= k
      ensures Depth(s, i, m) >= 0 && (m == k ==> Depth(s, i, m) == 0)
    {
      if i < m {
        DepthSum(s, i, i + 1, m);
        assert Depth(s, i, i + 1) == 1;
      }
      if m == k {
        DepthSum(s, i + 1, k - 1, k);
      }
    }
  }

  lemma NestedBehind(s: string, i: int, k: int, j: int)
    requires 0 <= i <= k <= j <= |s| && Nested(s, k, j) && (Nested(s, i, k) || (k == i + 1 && s[i] != '(' && s[i] != ')'))
    ensures Nested(s, i, j)
  {
    assert Depth(s, i, i) == 0;
    forall m | i <= m <= j
      ensures Depth(s, i, m) >= 0 && (m == j ==> Depth(s, i, m) == 0)
    {
      if k <= m {
        DepthSum(s, i, k, m);
      }
    }
  }

  /** The first place behind k where the depth is back at 0. */
  lemma {:induction false} Closing(s: string, i: int, k: int, j: int) returns (e: int)
    requires 0 <= i < k <= j <= |s| && Depth(s, i, j) == 0 && Depth(s, i, k) >= 0
    requires forall m :: i < m < k ==> Depth(s, i, m) > 0
    requires forall m :: i <= m <= j ==> Depth(s, i, m) >= 0
    ensures k <= e <= j && Depth(s, i, e) == 0 && forall m :: i < m < e ==> Depth(s, i, m) > 0
    decreases j - k
  {
    if Depth(s, i, k) == 0 {
      e := k;
    } else {
      e := Closing(s, i, k + 1, j);
    }
  }

  lemma {:induction false} NestedProper(s: string, i: int, j: int) returns (t: Text)
    requires 0 <= i <= j <= |s| && Nested(s, i, j)
    ensures Proper(t) && Spell(t) == s[i..j]
    decreases j - i
  {
    if i == j {
      return Empty;
    }
    assert Depth(s, i, i + 1) >= 0 && Depth(s, i, i) == 0;
    if s[i] != '(' {
      assert s[i] != ')' && Depth(s, i, i + 1) == 0;
      var i1 := i + 1;
      forall m | i1 <= m <= j
        ensures Depth(s, i1, m) == Depth(s, i, m) >= 0
      {
        DepthSum(s, i, i1, m);
      }
      var rest := NestedProper(s, i1, j);
      t := Plain(s[i], rest);
      assert s[i..j] == [s[i]] + s[i + 1..j];
    } else {
      var e := Closing(s, i, i + 1, j);
      GroupInside(s, i, e, j);
      var inside := NestedProper(s, i + 1, e - 1);
      var rest := NestedProper(s, e, j);
      t := Group(inside, rest);
      assert s[i..j] == [s[i]] + s[i + 1..e - 1] + [s[e - 1]] + s[e..j];
    }
  }

  lemma GroupInside(s: string, i: int, e: int, j: int)
    requires 0 <= i < e <= j <= |s| && Nested(s, i, j) && s[i] == '('
    requires Depth(s, i, e) == 0 && forall m :: i < m < e ==> Depth(s, i, m) > 0
    ensures i + 1 <= e - 1 && s[e - 1] == ')' && Nested(s, i + 1, e - 1) && Nested(s, e, j)
  {
    assert Depth(s, i, i + 1) == 1 && Depth(s, i, i) == 0;
    assert Depth(s, i, e - 1) > 0 && Depth(s, i, e) == 0;
    assert s[e - 1] == ')' && Depth(s, i, e - 1) == 1;
    var i1, e1 := i + 1, e - 1;
    forall m | i1 <= m <= e1
      ensures Depth(s, i1, m) == Depth(s, i, m) - 1 >= 0
    {
      DepthSum(s, i, i1, m);
    }
    assert Nested(s, i1, e1);
    forall m | e <= m <= j
      ensures Depth(s, e, m) == Depth(s, i, m) >= 0
    {
      DepthSum(s, i, e, m);
    }
  }

  /** What balances is what the grammar spells. */
  lemma BalancedSpelled(s: string, i: int, j: int)
    requires 0 <= i <= j <= |s|
    ensures Balanced(s, i, j) <==> i < j && exists t :: Proper(t) && Spell(t) == s[i..j]
  {
    if Balanced(s, i, j) {
      var t := NestedProper(s, i, j);
    }
    if i < j && exists t :: Proper(t) && Spell(t) == s[i..j] {
      var t :| Proper(t) && Spell(t) == s[i..j];
      ProperNested(s, i, j, t);
    }
  }

  // ------------------------------------------------------------ single nodes

  /** What the leaves match. */
  lemma LeafMeaning(l: Leaf, s: string, c: int, e: int)
    requires 0 <= c <= |s|
    ensures |Ends(Single(l), s, c)| <= 1
    ensures Out(e, []) in Ends(Single(l), s, c) <==> c <= e <= |s| && match l
      case Lit(t) => s[c..e] == t
      case Len(n) => |s[c..e]| == n
      case Pos(n) => c == e == |s[..e]| == n
      case RPos(n) => c == e && |s[e..]| == n
      case Tab(n) => |s[..e]| == n
      case RTab(n) => |s[e..]| == n
      case AnyOf(cs) => |s[c..e]| == 1 && s[c] in cs
      case NotAny(cs) => |s[c..e]| == 1 && s[c] !in cs
      case Span(cs) => s[c..e] != "" && (forall x :: x in s[c..e] ==> x in cs) && (e < |s| ==> s[e] !in cs)
      case Break(cs) => e < |s| && s[e] in cs && forall x :: x in s[c..e] ==> x !in cs
    ensures forall o :: o in Ends(Single(l), s, c) ==> o.caps == []
  {
    match l
    case Lit(t) => assert c <= e <= |s| && s[c..e] == t ==> e == c + |t|;
    case Span(cs) => SpanOnly(cs, s, c, e);
    case Break(cs) => BreakOnly(cs, s, c, e);
    case _ =>
  }

  lemma SpanOnly(cs: string, s: string, c: int, e: int)
    requires 0 <= c <= |s|
    ensures e == SpanEnd(cs, s, c) <==>
              c <= e <= |s| && (forall x :: x in s[c..e] ==> x in cs) && (e < |s| ==> s[e] !in cs)
  {
    var f := SpanEnd(cs, s, c);
    if c <= e <= |s| && (forall x :: x in s[c..e] ==> x in cs) && (e < |s| ==> s[e] !in cs) {
      assert forall k :: c <= k < e ==> s[k] in s[c..e];
    }
  }

  lemma BreakOnly(cs: string, s: string, c: int, e: int)
    requires 0 <= c <= |s|
    ensures e == BreakEnd(cs, s, c) < |s| <==>
              c <= e < |s| && s[e] in cs && forall x :: x in s[c..e] ==> x !in cs
  {
    var f := BreakEnd(cs, s, c);
    if c <= e < |s| && s[e] in cs && (forall x :: x in s[c..e] ==> x !in cs) {
      assert forall k :: c <= k < e ==> s[k] in s[c..e];
    }
  }

  /** ARB: every end, the nearest first. */
  lemma {:induction false} ArbMeaning(s: string, c: int, k: nat)
    requires 0 <= c <= |s| && k <= |s| - c
    ensures |Ends(Arb, s, c)| == |s| - c + 1 && Ends(Arb, s, c)[k] == Out(c + k, [])
    decreases |s| - c
  {
    assert Ends(Arb, s, c) == ArbEnds(s, c) == [Out(c, [])] + ArbEnds(s, c + 1);
    if c < |s| {
      ArbMeaning(s, c + 1, if k == 0 then 0 else k - 1);
      assert Ends(Arb, s, c + 1) == ArbEnds(s, c + 1);
    }
  }

  lemma {:induction false} BalListed(s: string, c: int, lo: int, o: Out)
    requires 0 <= c < lo
    ensures o in BalEnds(s, c, lo) <==> o.caps == [] && lo <= o.end <= |s| && Balanced(s, c, o.end)
    decreases |s| - lo
  {
    if lo <= |s| {
      BalListed(s, c, lo + 1, o);
    }
  }

  lemma {:induction false} BalRises(s: string, c: int, lo: int, i: int, j: int)
    requires 0 <= c < lo && 0 <= i < j < |BalEnds(s, c, lo)|
    ensures BalEnds(s, c, lo)[i].end < BalEnds(s, c, lo)[j].end
    decreases |s| - lo
  {
    var more := BalEnds(s, c, lo + 1);
    if Balanced(s, c, lo) {
      assert BalEnds(s, c, lo) == [Out(lo, [])] + more && more[j - 1] in more;
      if i > 0 {
        BalRises(s, c, lo + 1, i - 1, j - 1);
      }
    } else {
      assert BalEnds(s, c, lo) == more;
      BalRises(s, c, lo + 1, i, j);
    }
  }

  /** BAL: every non-empty balanced string at the cursor, the shortest first. */
  lemma BalMeaning(s: string, c: int, o: Out)
    requires 0 <= c <= |s|
    ensures o in Ends(Bal, s, c) <==>
              && o.caps == [] && c < o.end <= |s|
              && multiset(s[c..o.end])['('] == multiset(s[c..o.end])[')']
              && forall k :: c <= k <= o.end ==> multiset(s[c..k])['('] >= multiset(s[c..k])[')']
    ensures forall i, j :: 0 <= i < j < |Ends(Bal, s, c)| ==> Ends(Bal, s, c)[i].end < Ends(Bal, s, c)[j].end
  {
    hide Balanced;
    BalListed(s, c, c + 1, o);
    if c < o.end <= |s| {
      BalancedCounts(s, c, o.end);
    }
    forall i, j | 0 <= i < j < |Ends(Bal, s, c)|
      ensures Ends(Bal, s, c)[i].end < Ends(Bal, s, c)[j].end
    {
      BalRises(s, c, c + 1, i, j);
    }
  }

  // -------------------------------------------------------------- combinations

  /** An alternation: the ways of the left, then those of the right. */
  lemma AltMeaning(x: Pat, y: Pat, s: string, c: int, k: nat)
    requires 0 <= c <= |s|
    ensures var a, b, all := Ends(x, s, c), Ends(y, s, c), Ends(Alt(x, y), s, c);
            && |all| == |a| + |b| && (k < |a| ==> all[k] == a[k]) && (k < |b| ==> all[|a| + k] == b[k])
  {
    hide Ends;
    EndsAlt(x, y, s, c);
  }

  lemma PrefixedHas(caps: seq<Cap>, outs: seq<Out>, o: Out)
    ensures o in Prefixed(caps, outs) <==> exists r :: r in outs && o == Out(r.end, caps + r.caps)
  {
    var all := Prefixed(caps, outs);
    if o in all {
      var k :| 0 <= k < |all| && all[k] == o;
      assert outs[k] in outs;
    }
    if r :| r in outs && o == Out(r.end, caps + r.caps) {
      var k :| 0 <= k < |outs| && outs[k] == r;
      assert all[k] == o;
    }
  }

  lemma {:induction false} ContinuedIn(y: Pat, s: string, outs: seq<Out>, lo: int, o: Out)
    requires forall q :: q in outs ==> 0 <= lo <= q.end <= |s|
    ensures o in CatEnds(y, s, outs, lo) <==>
              exists q, r :: q in outs && r in Ends(y, s, q.end) && o == Out(r.end, q.caps + r.caps)
    decreases |outs|
  {
    hide Ends, Prefixed;
    if outs != [] {
      var q0, rest := outs[0], outs[1..];
      assert forall q :: q in rest ==> q in outs;
      ContinuedIn(y, s, rest, lo, o);
      PrefixedHas(q0.caps, Ends(y, s, q0.end), o);
      assert outs == [q0] + rest;
    }
  }

  lemma {:induction false} ContinuedFirst(y: Pat, s: string, outs: seq<Out>, lo: int, i: int)
    requires forall q :: q in outs ==> 0 <= lo <= q.end <= |s|
    requires 0 <= i < |outs| && Ends(y, s, outs[i].end) != [] && forall k :: 0 <= k < i ==> Ends(y, s, outs[k].end) == []
    ensures var q, r := outs[i], Ends(y, s, outs[i].end)[0];
            CatEnds(y, s, outs, lo) != [] && CatEnds(y, s, outs, lo)[0] == Out(r.end, q.caps + r.caps)
    decreases |outs|
  {
    hide Ends;
    if i > 0 {
      ContinuedFirst(y, s, outs[1..], lo, i - 1);
    }
  }

  /** A concatenation: the right continues where the left has ended. */
  lemma CatMeaning(x: Pat, y: Pat, s: string, c: int, o: Out)
    requires 0 <= c <= |s|
    ensures o in Ends(Cat(x, y), s, c) <==>
              exists q, r :: q in Ends(x, s, c) && r in Ends(y, s, q.end) && o == Out(r.end, q.caps + r.caps)
  {
    hide Ends, CatEnds, MinLen, Prefixed;
    EndsCat(x, y, s, c);
    ContinuedIn(y, s, Ends(x, s, c), c + MinLen(x), o);
  }

  /** The first way is by the first end of the left from which the right matches. */
  lemma CatFirst(x: Pat, y: Pat, s: string, c: int, i: int)
    requires 0 <= c <= |s| && 0 <= i < |Ends(x, s, c)| && Ends(y, s, Ends(x, s, c)[i].end) != []
    requires forall k :: 0 <= k < i ==> Ends(y, s, Ends(x, s, c)[k].end) == []
    ensures var q := Ends(x, s, c)[i];
            var r := Ends(y, s, q.end)[0];
            Ends(Cat(x, y), s, c) != [] && Ends(Cat(x, y), s, c)[0] == Out(r.end, q.caps + r.caps)
  {
    hide Ends, CatEnds, MinLen, Prefixed;
    EndsCat(x, y, s, c);
    ContinuedFirst(y, s, Ends(x, s, c), c + MinLen(x), i);
  }

  /** A capture: the span that was matched, behind the captures made in it. */
  lemma {:induction false} CapturedAll(name: string, c: int, outs: seq<Out>, k: int)
    requires 0 <= k < |outs|
    ensures Captured(name, c, outs)[k] == Out(outs[k].end, outs[k].caps + [Cap(name, c, outs[k].end)])
    decreases |outs|
  {
    if k > 0 {
      CapturedAll(name, c, outs[1..], k - 1);
    }
  }

  lemma CaptureMeaning(b: Pat, name: string, s: string, c: int, k: int)
    requires 0 <= c <= |s| && 0 <= k < |Ends(b, s, c)|
    ensures var q := Ends(b, s, c)[k];
            && |Ends(Capture(b, name), s, c)| == |Ends(b, s, c)|
            && Ends(Capture(b, name), s, c)[k] == Out(q.end, q.caps + [Cap(name, c, q.end)])
  {
    hide Ends;
    EndsCapture(b, name, s, c);
    CapturedAll(name, c, Ends(b, s, c), k);
  }

  // ------------------------------------------------------------------- ARBNO

  /** Rounds of b from cursor c, one after the other; only the last may be null. */
  ghost predicate Rounds(b: Pat, s: string, c: int, rounds: seq<Out>)
    requires 0 <= c <= |s|
    decreases |rounds|
  {
    rounds == [] || (
      && rounds[0] in Ends(b, s, c) && (|rounds| > 1 ==> c < rounds[0].end)
      && Rounds(b, s, rounds[0].end, rounds[1..]))
  }

  /** What rounds come to. */
  function Together(c: int, rounds: seq<Out>): (o: Out)
    decreases |rounds|
  {
    if rounds == [] then Out(c, [])
    else
      var more := Together(rounds[0].end, rounds[1..]);
      Out(more.end, rounds[0].caps + more.caps)
  }

  lemma {:induction false} LoopRounds(b: Pat, s: string, c: int, o: Out) returns (rounds: seq<Out>)
    requires 0 <= c <= |s| && o in LoopEnds(b, s, c)
    ensures rounds != [] && Rounds(b, s, c, rounds) && Together(c, rounds) == o
    decreases |s| - c, 1, 0
  {
    hide Ends;
    rounds := MoreRounds(b, s, c, Ends(b, s, c), o);
  }

  lemma {:induction false} MoreRounds(b: Pat, s: string, c: int, outs: seq<Out>, o: Out) returns (rounds: seq<Out>)
    requires 0 <= c <= |s| && (forall q :: q in outs ==> q in Ends(b, s, c)) && o in MoreEnds(b, s, c, outs)
    ensures rounds != [] && Rounds(b, s, c, rounds) && Together(c, rounds) == o
    decreases |s| - c, 0, |outs|
  {
    hide Ends, LoopEnds, RoundEnds;
    var first := outs[0];
    if o in RoundEnds(b, s, c, first) {
      EndInside(b, s, c, first);
      var tail := RoundTail(b, s, c, first, o);
      rounds := [first];
      if tail != Out(first.end, []) {
        var more := LoopRounds(b, s, first.end, tail);
        rounds := [first] + more;
        assert rounds[1..] == more;
      }
    } else {
      rounds := MoreRounds(b, s, c, outs[1..], o);
    }
  }

  lemma EndInside(b: Pat, s: string, c: int, o: Out)
    requires 0 <= c <= |s| && o in Ends(b, s, c)
    ensures c <= o.end <= |s|
  {
  }

  /** How a round goes on. */
  lemma RoundTail(b: Pat, s: string, c: int, first: Out, o: Out) returns (tail: Out)
    requires 0 <= c <= first.end <= |s| && o in RoundEnds(b, s, c, first)
    ensures o == Out(tail.end, first.caps + tail.caps)
    ensures tail == Out(first.end, []) || (c < first.end && tail in LoopEnds(b, s, first.end))
  {
    hide LoopEnds, Prefixed;
    var again := if c < first.end then LoopEnds(b, s, first.end) else [];
    PrefixedHas(first.caps, [Out(first.end, [])] + again, o);
    tail :| tail in [Out(first.end, [])] + again && o == Out(tail.end, first.caps + tail.caps);
  }

  lemma {:induction false} RoundsLoop(b: Pat, s: string, c: int, rounds: seq<Out>)
    requires 0 <= c <= |s| && rounds != [] && Rounds(b, s, c, rounds)
    ensures Together(c, rounds) in LoopEnds(b, s, c)
    decreases |rounds|
  {
    hide Ends;
    var first, rest := rounds[0], rounds[1..];
    if rest != [] {
      RoundsLoop(b, s, first.end, rest);
    }
    RoundIn(b, s, c, Ends(b, s, c), first, Together(first.end, rest));
  }

  lemma {:induction false} RoundIn(b: Pat, s: string, c: int, outs: seq<Out>, first: Out, more: Out)
    requires 0 <= c <= |s| && (forall q :: q in outs ==> q in Ends(b, s, c)) && first in outs
    requires more == Out(first.end, []) || (c < first.end <= |s| && more in LoopEnds(b, s, first.end))
    ensures Out(more.end, first.caps + more.caps) in MoreEnds(b, s, c, outs)
    decreases |outs|
  {
    hide Ends, LoopEnds;
    if first == outs[0] {
      var again := if c < first.end then LoopEnds(b, s, first.end) else [];
      var tails := [Out(first.end, [])] + again;
      assert tails[0] == Out(first.end, []) && forall q :: q in again ==> q in tails;
      var k :| 0 <= k < |tails| && tails[k] == more;
      assert Prefixed(first.caps, tails)[k] == Out(more.end, first.caps + more.caps);
    } else {
      RoundIn(b, s, c, outs[1..], first, more);
    }
  }

  /** ARBNO: any number of rounds, none first. */
  lemma ArbnoMeaning(b: Pat, s: string, c: int, o: Out)
    requires 0 <= c <= |s|
    ensures o in Ends(Arbno(b), s, c) <==> exists rounds :: Rounds(b, s, c, rounds) && Together(c, rounds) == o
    ensures Ends(Arbno(b), s, c)[0] == Out(c, [])
  {
    hide Ends, LoopEnds, Rounds, Together;
    EndsArbno(b, s, c);
    NoRounds(b, s, c);
    if o in LoopEnds(b, s, c) {
      var rounds := LoopRounds(b, s, c, o);
    }
    if rounds :| Rounds(b, s, c, rounds) && Together(c, rounds) == o {
      if rounds != [] {
        RoundsLoop(b, s, c, rounds);
      }
    }
  }

  /** One round comes before two. */
  lemma ArbnoSecond(b: Pat, s: string, c: int)
    requires 0 <= c <= |s| && Ends(b, s, c) != []
    ensures |Ends(Arbno(b), s, c)| > 1 && Ends(Arbno(b), s, c)[1] == Ends(b, s, c)[0]
  {
    hide Ends;
    EndsArbno(b, s, c);
    var first := Ends(b, s, c)[0];
    EndInside(b, s, c, first);
    assert MoreEnds(b, s, c, Ends(b, s, c)) == RoundEnds(b, s, c, first) + MoreEnds(b, s, c, Ends(b, s, c)[1..]);
    assert RoundEnds(b, s, c, first)[0] == Out(first.end, first.caps + []);
    assert first.caps + [] == first.caps;
  }

  lemma NoRounds(b: Pat, s: string, c: int)
    requires 0 <= c <= |s|
    ensures Rounds(b, s, c, []) && Together(c, []) == Out(c, [])
  {
  }
}
