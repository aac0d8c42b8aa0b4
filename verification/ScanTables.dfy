/** Table-driven scanning: the 256-entry tables behind SPAN and BREAK, the
    character search behind ANY and NOTANY, and the balanced prefix behind BAL. */
module ScanTables {
  import opened PatternAlgebra
  import opened PatternMachine
  import opened PatternMeaning
  import opened PatternCorrect

  datatype Action = CONTIN | STOP | STOPSH | ERROR

  datatype StreamResult = Stopped | EndOfSubject | Failed

  predicate Bytes(s: string) {
    forall i :: 0 <= i < |s| ==> s[i] as int < 256
  }

  /** The first position at or after i whose action is not to continue. */
  function StreamEnd(table: seq<Action>, s: string, i: int): (e: int)
    requires |table| == 256 && Bytes(s) && 0 <= i <= |s|
    ensures i <= e <= |s|
    decreases |s| - i
  {
    if i == |s| || table[s[i] as int] != CONTIN then i else StreamEnd(table, s, i + 1)
  }

  class SynTab {
    const chrs: array<Action>

    constructor ()
      ensures fresh(chrs) && chrs.Length == 256
    {
      chrs := new Action[256](_ => CONTIN);
    }

    /** clertb: every character gets the same action. */
    method Clertb(act: Action)
      requires chrs.Length == 256
      modifies chrs
      ensures forall j :: 0 <= j < 256 ==> chrs[j] == act
    {
      var i := 0;
      while i < 256
        invariant 0 <= i <= 256
        invariant forall j :: 0 <= j < i ==> chrs[j] == act
      {
        chrs[i] := act;
        i := i + 1;
      }
    }

    /** plugtb: the characters of s get another action. */
    method Plugtb(act: Action, s: string)
      requires chrs.Length == 256 && Bytes(s)
      modifies chrs
      ensures forall c: char :: c as int < 256 ==> chrs[c as int] == if c in s then act else old(chrs[c as int])
    {
      var i := 0;
      while i < |s|
        invariant 0 <= i <= |s|
        invariant forall c: char :: c as int < 256 ==> chrs[c as int] == if c in s[..i] then act else old(chrs[c as int])
      {
        chrs[s[i] as int] := act;
        assert s[..i + 1] == s[..i] + [s[i]];
        i := i + 1;
      }
      assert s[..i] == s;
    }

    /** stream, without the token that a table may put: how far the table
        continues from position p, and why it stopped there. */
    method Stream(s: string, p: int) returns (e: int, ret: StreamResult)
      requires chrs.Length == 256 && Bytes(s) && 0 <= p <= |s|
      ensures var stop := StreamEnd(chrs[..], s, p);
              if stop == |s| then ret == EndOfSubject && e == |s|
              else match chrs[s[stop] as int]
                   case STOP => ret == Stopped && e == stop + 1
                   case STOPSH => ret == Stopped && e == stop
                   case _ => ret == Failed
    {
      var i := p;
      while i < |s|
        invariant p <= i <= |s|
        invariant StreamEnd(chrs[..], s, p) == StreamEnd(chrs[..], s, i)
      {
        var act := chrs[s[i] as int];
        if act == CONTIN {
          i := i + 1;
          continue;
        }
        match act
        case STOP => return i + 1, Stopped;
        case STOPSH => return i, Stopped;
        case _ => return i, Failed;
      }
      return |s|, EndOfSubject;
    }
  }

  lemma {:induction false} StreamBreaks(table: seq<Action>, cs: string, s: string, i: int)
    requires |table| == 256 && Bytes(s) && 0 <= i <= |s|
    requires forall c: char :: c as int < 256 ==> table[c as int] == if c in cs then STOPSH else CONTIN
    ensures StreamEnd(table, s, i) == BreakEnd(cs, s, i)
    decreases |s| - i
  {
    if i < |s| {
      StreamBreaks(table, cs, s, i + 1);
    }
  }

  lemma {:induction false} StreamSpans(table: seq<Action>, cs: string, s: string, i: int)
    requires |table| == 256 && Bytes(s) && 0 <= i <= |s|
    requires forall c: char :: c as int < 256 ==> table[c as int] == if c in cs then CONTIN else STOPSH
    ensures StreamEnd(table, s, i) == SpanEnd(cs, s, i)
    decreases |s| - i
  {
    if i < |s| {
      StreamSpans(table, cs, s, i + 1);
    }
  }

  /** any: does the character occur in the set? */
  method Any(c: char, cs: string) returns (found: bool)
    ensures found <==> c in cs
  {
    var i := 0;
    while i < |cs|
      invariant 0 <= i <= |cs| && c !in cs[..i]
    {
      if cs[i] == c {
        return true;
      }
      assert cs[..i + 1] == cs[..i] + [cs[i]];
      i := i + 1;
    }
    assert cs[..i] == cs;
    return false;
  }

  /** getbal: extend s[..c] by the shortest balanced stretch of at most room
      characters. */
  method Getbal(s: string, c: int, room: int) returns (r: Option<int>)
    requires 0 <= c && 0 < room && c + room <= |s|
    ensures r == ShortBal(s, c, c, c + room)
    ensures match r
            case Some(x) => c < x <= c + room && Paired(s, c, x) && forall j :: c < j < x ==> !Paired(s, c, j)
            case None => forall j :: c < j <= c + room ==> !Paired(s, c, j)
  {
    ShortBalCorrect(s, c, c, c + room);
    forall j | c < j <= c + room
      ensures Balanced(s, c, j) <==> Paired(s, c, j)
    {
      BalancedCounts(s, c, j);
    }
    hide Balanced, Paired;
    var len, cp, count, j := room, c, 0, 1;
    while len > 0
      invariant 0 <= len <= room && cp == c + room - len && j == cp - c + 1
      invariant count == Depth(s, c, cp)
      invariant ShortBal(s, c, c, c + room) == ShortBal(s, c, cp, c + room)
    {
      if s[cp] == '(' {
        count := count + 1;
      }
      if s[cp] == ')' {
        count := count - 1;
        if count < 0 {
          return None;
        }
      }
      if count == 0 {
        return Some(c + j);
      }
      len := len - 1;
      cp := cp + 1;
      j := j + 1;
    }
    return None;
  }
}
