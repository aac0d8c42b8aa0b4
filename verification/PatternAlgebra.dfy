/** The pattern algebra: which ends a pattern reaches from a cursor, in the
    order in which the scanner has to try them.  Nothing here mentions node
    blocks, the history list or heuristics. */
module PatternAlgebra {

  /** A conditional capture: the name, and the span of the subject it covers. */
  datatype Cap = Cap(name: string, from: int, to: int)

  /** One way of matching: where it ends and the captures made on the way. */
  datatype Out = Out(end: int, caps: seq<Cap>)

  datatype Option<T> = None | Some(value: T)

  /** Patterns made of a single node: they reach at most one end. */
  datatype Leaf =
    | Lit(text: string)
    | Len(n: nat)
    | Pos(n: nat)
    | RPos(n: nat)
    | Tab(n: nat)
    | RTab(n: nat)
    | AnyOf(cs: string)
    | NotAny(cs: string)
    | Span(cs: string)
    | Break(cs: string)

  datatype Pat =
    | Single(leaf: Leaf)
    | Arb
    | Bal
    | Alt(left: Pat, right: Pat)
    | Cat(left: Pat, right: Pat)
    | Arbno(body: Pat)
    | Capture(body: Pat, name: string)

  /** ANY, NOTANY, SPAN and BREAK refuse the null string when they are built. */
  predicate LeafOk(l: Leaf) {
    (l.AnyOf? || l.NotAny? || l.Span? || l.Break?) ==> l.cs != ""
  }

  predicate WellFormed(p: Pat) {
    match p
    case Single(l) => LeafOk(l)
    case Alt(x, y) => WellFormed(x) && WellFormed(y)
    case Cat(x, y) => WellFormed(x) && WellFormed(y)
    case Arbno(b) => WellFormed(b)
    case Capture(b, _) => WellFormed(b)
    case _ => true
  }

  /** The end of the longest run of characters of cs starting at c. */
  function SpanEnd(cs: string, s: string, c: int): (e: int)
    requires 0 <= c <= |s|
    ensures c <= e <= |s|
    ensures forall i :: c <= i < e ==> s[i] in cs
    ensures e < |s| ==> s[e] !in cs
    decreases |s| - c
  {
    if c == |s| || s[c] !in cs then c else SpanEnd(cs, s, c + 1)
  }

  /** The first position at or after c that holds a character of cs, or |s|. */
  function BreakEnd(cs: string, s: string, c: int): (e: int)
    requires 0 <= c <= |s|
    ensures c <= e <= |s|
    ensures forall i :: c <= i < e ==> s[i] !in cs
    ensures e < |s| ==> s[e] in cs
    decreases |s| - c
  {
    if c == |s| || s[c] in cs then c else BreakEnd(cs, s, c + 1)
  }

  /** Where a leaf ends when tried at cursor c. */
  function LeafEnd(l: Leaf, s: string, c: int): Option<int>
    requires 0 <= c <= |s|
  {
    match l
    case Lit(t) => if c + |t| <= |s| && s[c..c + |t|] == t then Some(c + |t|) else None
    case Len(n) => if c + n <= |s| then Some(c + n) else None
    case Pos(n) => if c == n then Some(c) else None
    case RPos(n) => if c == |s| - n then Some(c) else None
    case Tab(n) => if c <= n <= |s| then Some(n) else None
    case RTab(n) => if c <= |s| - n then Some(|s| - n) else None
    case AnyOf(cs) => if c < |s| && s[c] in cs then Some(c + 1) else None
    case NotAny(cs) => if c < |s| && s[c] !in cs then Some(c + 1) else None
    case Span(cs) => if SpanEnd(cs, s, c) > c then Some(SpanEnd(cs, s, c)) else None
    case Break(cs) => if BreakEnd(cs, s, c) < |s| then Some(BreakEnd(cs, s, c)) else None
  }

  /** Parenthesis depth of s[i..j]. */
  function Depth(s: string, i: int, j: int): int
    requires 0 <= i <= j <= |s|
    decreases j - i
  {
    if i == j then 0
    else Depth(s, i, j - 1) + (if s[j - 1] == '(' then 1 else if s[j - 1] == ')' then -1 else 0)
  }

  /** s[i..j] is non-empty and its parentheses balance. */
  ghost predicate Balanced(s: string, i: int, j: int)
    requires 0 <= i && j <= |s|
  {
    i < j && Depth(s, i, j) == 0 && forall m :: i <= m <= j ==> Depth(s, i, m) >= 0
  }

  /** All ends j >= lo for which s[c..j] is balanced, in increasing order. */
  ghost function BalEnds(s: string, c: int, lo: int): (outs: seq<Out>)
    requires 0 <= c < lo
    ensures forall o :: o in outs ==> lo <= o.end <= |s|
    decreases |s| - lo
  {
    if lo > |s| then []
    else (if Balanced(s, c, lo) then [Out(lo, [])] else []) + BalEnds(s, c, lo + 1)
  }

  function ArbEnds(s: string, c: int): (outs: seq<Out>)
    requires 0 <= c
    ensures forall o :: o in outs ==> c <= o.end <= |s|
    decreases |s| - c
  {
    if c > |s| then [] else [Out(c, [])] + ArbEnds(s, c + 1)
  }

  /** Every element of outs, its captures preceded by caps. */
  function Prefixed(caps: seq<Cap>, outs: seq<Out>): (r: seq<Out>)
    ensures |r| == |outs|
    ensures forall i :: 0 <= i < |outs| ==> r[i] == Out(outs[i].end, caps + outs[i].caps)
  {
    if outs == [] then [] else [Out(outs[0].end, caps + outs[0].caps)] + Prefixed(caps, outs[1..])
  }

  /** The captures of each way of matching, followed by one more span. */
  function Captured(name: string, c: int, outs: seq<Out>): (r: seq<Out>)
    ensures |r| == |outs|
    ensures forall i :: 0 <= i < |outs| ==> r[i].end == outs[i].end
  {
    if outs == [] then []
    else [Out(outs[0].end, outs[0].caps + [Cap(name, c, outs[0].end)])] + Captured(name, c, outs[1..])
  }

  /** The ways of matching p from cursor c, in the order the scanner tries them. */
  ghost function Ends(p: Pat, s: string, c: int): (outs: seq<Out>)
    requires 0 <= c <= |s|
    ensures forall o :: o in outs ==> c + MinLen(p) <= o.end <= |s|
    decreases p, |s| - c, 2, 0
  {
    match p
    case Arb => ArbEnds(s, c)
    case Bal => BalEnds(s, c, c + 1)
    case Alt(l, r) => Ends(l, s, c) + Ends(r, s, c)
    case Cat(l, r) => CatEnds(r, s, Ends(l, s, c), c + MinLen(l))
    case Arbno(b) => [Out(c, [])] + LoopEnds(b, s, c)
    case Capture(b, name) =>
      var outs := Ends(b, s, c);
      Captured(name, c, outs)
    case Single(l) =>
      (match LeafEnd(l, s, c)
       case None => []
       case Some(e) => [Out(e, [])])
  }

  /** Continue each of the outs with q. */
  ghost function CatEnds(q: Pat, s: string, outs: seq<Out>, lo: int): (r: seq<Out>)
    requires forall o :: o in outs ==> 0 <= lo <= o.end <= |s|
    ensures forall o :: o in r ==> lo + MinLen(q) <= o.end <= |s|
    decreases q, |s| + 1, |outs|, 0
  {
    if outs == [] then []
    else Prefixed(outs[0].caps, Ends(q, s, outs[0].end)) + CatEnds(q, s, outs[1..], lo)
  }

  /** One round of b and then ARBNO(b) again. */
  ghost function LoopEnds(b: Pat, s: string, c: int): (r: seq<Out>)
    requires 0 <= c <= |s|
    ensures forall o :: o in r ==> c <= o.end <= |s|
    decreases b, |s| - c, 3, 0
  {
    MoreEnds(b, s, c, Ends(b, s, c))
  }

  /** After each round that consumed something, ARBNO(b) starts afresh; a
      round that matched null is not repeated. */
  ghost function MoreEnds(b: Pat, s: string, c: int, outs: seq<Out>): (r: seq<Out>)
    requires 0 <= c <= |s|
    ensures (forall o :: o in outs ==> c <= o.end <= |s|) ==> forall o :: o in r ==> c <= o.end <= |s|
    decreases b, |s| - c, 2, |outs|
  {
    if outs == [] then [] else RoundEnds(b, s, c, outs[0]) + MoreEnds(b, s, c, outs[1..])
  }

  /** One end of the body, and what the rounds after it reach. */
  ghost function RoundEnds(b: Pat, s: string, c: int, first: Out): (r: seq<Out>)
    requires 0 <= c <= |s|
    ensures c <= first.end <= |s| ==> forall o :: o in r ==> c <= o.end <= |s|
    decreases b, |s| - c, 1
  {
    var again := if c < first.end <= |s| then LoopEnds(b, s, first.end) else [];
    Prefixed(first.caps, [Out(first.end, [])] + again)
  }

  function LeafMin(l: Leaf): nat {
    match l
    case Lit(t) => |t|
    case Len(n) => n
    case AnyOf(_) => 1
    case NotAny(_) => 1
    case Span(_) => 1
    case _ => 0
  }

  /** The number of subject characters every match of p consumes at least. */
  function MinLen(p: Pat): nat {
    match p
    case Single(l) => LeafMin(l)
    case Alt(l, r) => if MinLen(r) < MinLen(l) then MinLen(r) else MinLen(l)
    case Cat(l, r) => MinLen(l) + MinLen(r)
    case Capture(b, _) => MinLen(b)
    case _ => 0
  }

  // The cases of the definitions, one by one.

  lemma EndsAlt(x: Pat, y: Pat, s: string, c: int)
    requires 0 <= c <= |s|
    ensures Ends(Alt(x, y), s, c) == Ends(x, s, c) + Ends(y, s, c)
  {
    hide LeafEnd, ArbEnds, BalEnds, LoopEnds, CatEnds, Captured, MinLen, LeafMin;
  }

  lemma EndsCat(x: Pat, y: Pat, s: string, c: int)
    requires 0 <= c <= |s|
    ensures forall o :: o in Ends(x, s, c) ==> 0 <= c + MinLen(x) <= o.end <= |s|
    ensures Ends(Cat(x, y), s, c) == CatEnds(y, s, Ends(x, s, c), c + MinLen(x))
  {
    hide LeafEnd, ArbEnds, BalEnds, LoopEnds, CatEnds, Captured, MinLen, LeafMin;
  }

  lemma EndsArbno(b: Pat, s: string, c: int)
    requires 0 <= c <= |s|
    ensures Ends(Arbno(b), s, c) == [Out(c, [])] + LoopEnds(b, s, c)
    ensures LoopEnds(b, s, c) == MoreEnds(b, s, c, Ends(b, s, c))
    ensures MinLen(Arbno(b)) == 0
  {
    hide LeafEnd, ArbEnds, BalEnds, CatEnds, Captured, MoreEnds, LeafMin;
  }

  lemma EndsCapture(b: Pat, name: string, s: string, c: int)
    requires 0 <= c <= |s|
    ensures Ends(Capture(b, name), s, c) == Captured(name, c, Ends(b, s, c))
    ensures MinLen(Capture(b, name)) == MinLen(b)
  {
    hide LeafEnd, ArbEnds, BalEnds, LoopEnds, CatEnds, Captured, LeafMin;
  }

  lemma WellFormedCases(x: Pat, y: Pat, name: string)
    ensures WellFormed(Alt(x, y)) == WellFormed(Cat(x, y)) == (WellFormed(x) && WellFormed(y))
    ensures WellFormed(Arbno(x)) == WellFormed(Capture(x, name)) == WellFormed(x)
  {
  }
}
