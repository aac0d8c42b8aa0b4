/** The scanner as a transition system: one step is one node entered or one
    history entry popped. */
module PatternMachine {
  import opened PatternAlgebra
  import opened PatternCode

  /** Traps that a history entry can hold instead of an alternate. */
  datatype TrapKind = SCFL | FNME | DNME

  datatype Link = To(a: int) | Trap(kind: TrapKind)

  /** A history entry: where to go on failure, with which cursor, the residual
      stored beside it, and the length-failure flag. */
  datatype Entry = Entry(link: Link, cur: int, v: int, lenf: bool)

  datatype State =
    | Scan(o: int, cur: int, lenf: bool, hist: seq<Entry>, stk: seq<int>, names: seq<Cap>)
    | Back(lenf: bool, hist: seq<Entry>, stk: seq<int>, names: seq<Cap>)
    | Accept(cur: int, hist: seq<Entry>, stk: seq<int>, names: seq<Cap>)
    | Reject(stk: seq<int>, names: seq<Cap>)
    | Stuck

  /** What stays fixed during a scan. */
  datatype Ctx = Ctx(code: seq<Cell>, subj: string, full: bool)

  predicate Final(st: State) {
    st.Accept? || st.Reject? || st.Stuck?
  }

  /** How a leaf node leaves: matched up to e, or failed with the length flag
      kept (SALT) or cleared (SALF). */
  datatype Try = Hit(e: int) | Alternate | Altfail

  function LeafTry(op: Op, arg: Arg, s: string, full: bool, cur: int, r: int): Try
    requires 0 <= cur <= |s|
  {
    if arg.Str? then
      var t := arg.s;
      match op
      case CHR =>
        if |s| - cur < |t| then Alternate
        else if s[cur..cur + |t|] == t then Hit(cur + |t|) else Altfail
      case ANYC =>
        if t == "" then Altfail
        else if cur == |s| then Alternate else if s[cur] in t then Hit(cur + 1) else Altfail
      case NNYC =>
        if t == "" then Altfail
        else if cur == |s| then Alternate else if s[cur] in t then Altfail else Hit(cur + 1)
      case SPNC =>
        if t == "" then Altfail
        else if |s| <= cur then Alternate
        else if SpanEnd(t, s, cur) == cur then Altfail else Hit(SpanEnd(t, s, cur))
      case BRKC =>
        if t == "" then Altfail
        else if BreakEnd(t, s, cur) == |s| then Alternate else Hit(BreakEnd(t, s, cur))
      case _ => Altfail
    else
      var x := arg.n;
      if x < 0 then Altfail
      else
        match op
        case LNTH => if cur + x > |s| then Alternate else Hit(cur + x)
        case POSI =>
          if x > |s| then Alternate
          else if x == cur then Hit(cur) else if x > cur then Altfail else Alternate
        case RPSI =>
          if cur < |s| - x then Altfail else if cur == |s| - x then Hit(cur) else Alternate
        case RTB =>
          if cur > |s| - x then Alternate
          else if !full && |s| - r < |s| - x then Alternate else Hit(|s| - x)
        case TB => if cur > x then Alternate else if x > |s| then Alternate else Hit(x)
        case _ => Altfail
  }

  /** The end of the shortest balanced extension of s[c..e] that starts at c and
      ends by hi, found by counting parentheses from left to right. */
  function ShortBal(s: string, c: int, e: int, hi: int): (r: Option<int>)
    requires 0 <= c <= e && hi <= |s|
    ensures r.Some? ==> e < r.value <= hi
    decreases hi - e
  {
    if e >= hi then None
    else
      var d := Depth(s, c, e + 1);
      if d < 0 then None else if d == 0 then Some(e + 1) else ShortBal(s, c, e + 1, hi)
  }

  function Ok(succ: int, cur: int, hist: seq<Entry>, stk: seq<int>, names: seq<Cap>): State {
    if succ == 0 then Accept(cur, hist, stk, names) else Scan(succ, cur, true, hist, stk, names)
  }

  /** ARB's retry: one character more, unless the continuation failed for
      length or the subject is used up. */
  function FarbStep(G: Ctx, succ: int, r: int, cur: int, lenf: bool, h: seq<Entry>, stk: seq<int>, names: seq<Cap>): State
    requires h != []
  {
    var top := |h| - 1;
    if !G.full && lenf then Back(true, h[..top], stk, names)
    else if cur + (if G.full then 0 else r) >= |G.subj| then Back(true, h[..top], stk, names)
    else Ok(succ, cur + 1, h[top := h[top].(cur := cur + 1)], stk, names)
  }

  function BalStep(G: Ctx, succ: int, r: int, cur: int, h: seq<Entry>, stk: seq<int>, names: seq<Cap>): State
    requires h != [] && 0 <= cur && 0 <= r
  {
    var top := |h| - 1;
    var limit := |G.subj| - (if G.full then 0 else r);
    if cur >= limit then Back(false, h[..top], stk, names)
    else
      match ShortBal(G.subj, cur, cur, limit)
      case None => Back(false, h[..top], stk, names)
      case Some(e) => Ok(succ, e, h[top := h[top].(cur := e)], stk, names)
  }

  /** The nodes of ARBNO: the start cursor of each round goes on the system
      stack (ARBN), is parked in EARB's own history entry when the round ends,
      and is put back (ONRF, ONAR) or dropped (ARBF) on failure. */
  function ArbnoStep(G: Ctx, op: Op, succ: int, cur: int, lenf: bool, h: seq<Entry>, stk: seq<int>, names: seq<Cap>): State
    requires h != []
  {
    var top := |h| - 1;
    match op
    case ARBN => Ok(succ, cur, h, stk + [cur], names)
    case ARBF => if stk == [] then Stuck else Back(lenf, h, stk[..|stk| - 1], names)
    case EARB =>
      if stk == [] then Stuck
      else Ok(succ, cur, h[top := Entry(To(stk[|stk| - 1]), cur, 0, false)], stk[..|stk| - 1], names)
    case ONAR =>
      if G.full then Ok(succ, cur, h, stk, names)
      else if top < 1 || !h[top - 1].link.To? then Stuck
      else if h[top - 1].link.a != cur then Ok(succ, cur, h, stk, names)
      else Back(lenf, h[..top - 1], stk + [h[top - 1].link.a], names)
    case ONRF =>
      if top < 1 || !h[top - 1].link.To? then Stuck
      else Back(lenf, h[..top - 1], stk + [h[top - 1].link.a], names)
    case _ => Stuck
  }

  /** The end of a capture: its record goes on the name list. */
  function EnmeStep(G: Ctx, o: int, succ: int, cur: int, lenf: bool, h: seq<Entry>, stk: seq<int>, names: seq<Cap>): State
    requires 0 <= o
  {
    if stk == [] || o + 4 >= |G.code| || !G.code[o + 4].Parm? || !G.code[o + 4].arg.Str? then Stuck
    else
      var start := stk[|stk| - 1];
      Ok(succ, cur, h + [Entry(Trap(DNME), cur, start, lenf)], stk[..|stk| - 1],
         names + [Cap(G.code[o + 4].arg.s, start, cur)])
  }

  function LeafStep(G: Ctx, o: int, op: Op, succ: int, r: int, cur: int, h: seq<Entry>, stk: seq<int>, names: seq<Cap>): State
    requires 0 <= o && 0 <= cur <= |G.subj|
  {
    if o + 4 >= |G.code| || !G.code[o + 4].Parm? then Stuck
    else
      match LeafTry(op, G.code[o + 4].arg, G.subj, G.full, cur, r)
      case Hit(e) => Ok(succ, e, h, stk, names)
      case Alternate => Back(true, h, stk, names)
      case Altfail => Back(false, h, stk, names)
  }

  /** A node is executed; its own history entry is already on top of h. */
  function OpStep(G: Ctx, o: int, op: Op, succ: int, r: int, cur: int, lenf: bool,
                  h: seq<Entry>, stk: seq<int>, names: seq<Cap>): State
    requires h != [] && 0 <= o && 0 <= cur <= |G.subj| && 0 <= r
  {
    match op
    case SCOK => Ok(succ, cur, h, stk, names)
    case FARB => FarbStep(G, succ, r, cur, lenf, h, stk, names)
    case BAL => BalStep(G, succ, r, cur, h, stk, names)
    case BALF =>
      if !G.full && lenf then Back(false, h[..|h| - 1], stk, names) else BalStep(G, succ, r, cur, h, stk, names)
    case NME => Ok(succ, cur, h + [Entry(Trap(FNME), cur, 0, lenf)], stk + [cur], names)
    case ENME => EnmeStep(G, o, succ, cur, lenf, h, stk, names)
    case ARBN => ArbnoStep(G, op, succ, cur, lenf, h, stk, names)
    case ARBF => ArbnoStep(G, op, succ, cur, lenf, h, stk, names)
    case EARB => ArbnoStep(G, op, succ, cur, lenf, h, stk, names)
    case ONAR => ArbnoStep(G, op, succ, cur, lenf, h, stk, names)
    case ONRF => ArbnoStep(G, op, succ, cur, lenf, h, stk, names)
    case _ => LeafStep(G, o, op, succ, r, cur, h, stk, names)
  }

  predicate NodeShape(code: seq<Cell>, o: int) {
    && 0 <= o && o + 3 < |code| && code[o + 1].Func? && code[o + 2].Conn?
    && code[o + 3].Heur? && 0 <= code[o + 3].v
  }

  /** A node is entered: its alternate, the cursor and the length flag go on
      the history list; in QUICKSCAN mode a subject that is too short for the
      node's stored need fails at once. */
  function ScanStep(G: Ctx, st: State): State
    requires st.Scan?
  {
    var Scan(o, cur, lenf, hist, stk, names) := st;
    if !NodeShape(G.code, o) || !(0 <= cur <= |G.subj|) then Stuck
    else
      var conn, heur := G.code[o + 2], G.code[o + 3];
      var h := hist + [Entry(To(conn.a), cur, heur.v, lenf)];
      if !G.full && cur + heur.a > |G.subj| then Back(true, h, stk, names)
      else OpStep(G, o, G.code[o + 1].op, conn.v, heur.v, cur, lenf, h, stk, names)
  }

  /** A history entry is popped. */
  function BackStep(st: State): State
    requires st.Back?
  {
    var Back(b, hist, stk, names) := st;
    if hist == [] then Stuck
    else
      var e, h := hist[|hist| - 1], hist[..|hist| - 1];
      var lenf := b && e.lenf;
      match e.link
      case To(a) => if a == 0 then Back(lenf, h, stk, names) else Scan(a, e.cur, lenf, h, stk, names)
      case Trap(SCFL) => Reject(stk, names)
      case Trap(FNME) => if stk == [] then Stuck else Back(lenf, h, stk[..|stk| - 1], names)
      case Trap(DNME) => if names == [] then Stuck else Back(lenf, h, stk + [e.v], names[..|names| - 1])
  }

  function Step(G: Ctx, st: State): State {
    if st.Scan? then ScanStep(G, st) else if st.Back? then BackStep(st) else st
  }

  function Run(G: Ctx, st: State, n: nat): State
    decreases n
  {
    if n == 0 then st else Run(G, Step(G, st), n - 1)
  }

  lemma {:induction false} RunAdd(G: Ctx, st: State, m: nat, n: nat)
    ensures Run(G, Run(G, st, m), n) == Run(G, st, m + n)
    decreases m
  {
    if m > 0 {
      RunAdd(G, Step(G, st), m - 1, n);
    }
  }

  lemma {:induction false} RunLast(G: Ctx, st: State, n: nat)
    ensures Run(G, st, n + 1) == Step(G, Run(G, st, n))
  {
    RunAdd(G, st, n, 1);
    assert Run(G, Run(G, st, n), 1) == Run(G, Step(G, Run(G, st, n)), 0);
  }

  ghost predicate Reaches(G: Ctx, st: State, st': State) {
    exists n: nat :: Run(G, st, n) == st'
  }

  lemma ReachesSelf(G: Ctx, st: State)
    ensures Reaches(G, st, st)
  {
    assert Run(G, st, 0) == st;
  }

  lemma ReachesTrans(G: Ctx, a: State, b: State, c: State)
    requires Reaches(G, a, b) && Reaches(G, b, c)
    ensures Reaches(G, a, c)
  {
    var m: nat :| Run(G, a, m) == b;
    var n: nat :| Run(G, b, n) == c;
    RunAdd(G, a, m, n);
  }

  lemma ReachesStep(G: Ctx, a: State, c: State)
    requires Reaches(G, Step(G, a), c)
    ensures Reaches(G, a, c)
  {
    var n: nat :| Run(G, Step(G, a), n) == c;
    assert Run(G, a, n + 1) == c;
  }
}
