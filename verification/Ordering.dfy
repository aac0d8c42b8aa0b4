/** The order of sort keys, and a measure of how far a sequence of rows is from
    being in that order. */
module Ordering {

  /** A cell: a string (its characters as numbers), an integer, the address of
      another cell, or something else. */
  datatype Value = Str(s: seq<int>) | Int(i: int) | Ptr(a: int) | Other(tag: int)

  /** lexcmp: negative, zero or positive. */
  function LexCmp(a: seq<int>, b: seq<int>): int {
    if a == [] || b == [] then |a| - |b|
    else if a[0] != b[0] then a[0] - b[0]
    else LexCmp(a[1..], b[1..])
  }

  method Lexcmp(a: seq<int>, b: seq<int>) returns (r: int)
    ensures r == LexCmp(a, b)
  {
    var i, j := |a|, |b|;
    while i > 0 && j > 0
      invariant 0 <= i <= |a| && 0 <= j <= |b| && |a| - i == |b| - j
      invariant LexCmp(a, b) == LexCmp(a[|a| - i..], b[|b| - j..])
    {
      if a[|a| - i] != b[|b| - j] {
        return a[|a| - i] - b[|b| - j];
      }
      assert a[|a| - i..][1..] == a[|a| - (i - 1)..] && b[|b| - j..][1..] == b[|b| - (j - 1)..];
      i, j := i - 1, j - 1;
    }
    return i - j;
  }

  lemma {:induction false} LexEqual(a: seq<int>, b: seq<int>)
    ensures LexCmp(a, b) == 0 <==> a == b
    ensures LexCmp(a, b) == -LexCmp(b, a)
    decreases |a|
  {
    if a != [] && b != [] {
      LexEqual(a[1..], b[1..]);
      assert a == [a[0]] + a[1..] && b == [b[0]] + b[1..];
    }
  }

  lemma {:induction false} LexTrans(a: seq<int>, b: seq<int>, c: seq<int>)
    requires LexCmp(a, b) <= 0 && LexCmp(b, c) <= 0
    ensures LexCmp(a, c) <= 0
    ensures LexCmp(a, b) < 0 || LexCmp(b, c) < 0 ==> LexCmp(a, c) < 0
    decreases |a|
  {
    if a != [] && b != [] && c != [] && a[0] == b[0] == c[0] {
      LexTrans(a[1..], b[1..], c[1..]);
    }
  }

  /** At k the two first differ, and a has the smaller character. */
  predicate SmallerAt(a: seq<int>, b: seq<int>, k: int) {
    0 <= k < |a| && k < |b| && a[..k] == b[..k] && a[k] < b[k]
  }

  lemma SmallerRest(a: seq<int>, b: seq<int>, k: int)
    requires a != [] && b != [] && 0 <= k
    ensures SmallerAt(a, b, k + 1) <==> a[0] == b[0] && SmallerAt(a[1..], b[1..], k)
    ensures SmallerAt(a, b, 0) <==> a[0] < b[0]
  {
    var a1, b1 := a[1..], b[1..];
    if k < |a1| && k < |b1| {
      assert a[..k + 1] == [a[0]] + a1[..k] && b[..k + 1] == [b[0]] + b1[..k];
      assert a[..k + 1][0] == a[0] && b[..k + 1][0] == b[0];
      assert a1[..k] == a[..k + 1][1..] && b1[..k] == b[..k + 1][1..];
    }
  }

  lemma PrefixRest(a: seq<int>, b: seq<int>)
    requires a != [] && b != []
    ensures a < b <==> a[0] == b[0] && a[1..] < b[1..]
  {
    assert a == [a[0]] + a[1..] && b == [b[0]] + b[1..];
  }

  /** What comes first: a beginning of the other string, or the one with the
      smaller character where they first differ. */
  lemma {:induction false} LexMeaning(a: seq<int>, b: seq<int>)
    ensures LexCmp(a, b) < 0 <==> a < b || exists k :: 0 <= k < |a| && k < |b| && a[..k] == b[..k] && a[k] < b[k]
    decreases |a|
  {
    hide SmallerAt;
    SmallerMeans(a, b);
    if a != [] && b != [] {
      var a1, b1 := a[1..], b[1..];
      LexMeaning(a1, b1);
      SmallerMeans(a1, b1);
      PrefixRest(a, b);
      SmallerRest(a, b, 0);
      if k :| 0 <= k && SmallerAt(a1, b1, k) {
        SmallerRest(a, b, k);
      }
      if k :| 0 < k && SmallerAt(a, b, k) {
        SmallerRest(a, b, k - 1);
      }
    }
  }

  lemma SmallerMeans(a: seq<int>, b: seq<int>)
    ensures (exists k :: 0 <= k < |a| && k < |b| && a[..k] == b[..k] && a[k] < b[k]) <==> exists k :: 0 <= k && SmallerAt(a, b, k)
    ensures a == [] || b == [] ==> !exists k :: 0 <= k && SmallerAt(a, b, k)
  {
    if k :| 0 <= k < |a| && k < |b| && a[..k] == b[..k] && a[k] < b[k] {
      assert SmallerAt(a, b, k);
    }
  }

  /** Two strings or two integers.  Other keys are not part of this model. */
  predicate Comparable(x: Value, y: Value) {
    (x.Str? && y.Str?) || (x.Int? && y.Int?)
  }

  function Compare(x: Value, y: Value): int {
    if x.Str? && y.Str? then LexCmp(x.s, y.s)
    else if x.Int? && y.Int? then x.i - y.i
    else 0
  }

  function ValueAt(mem: seq<Value>, f: int): Value {
    if 0 <= f < |mem| then mem[f] else Other(0)
  }

  /** The keys at the addresses in S can be compared. */
  ghost predicate Keyed(mem: seq<Value>, S: set<int>) {
    && (forall x :: x in S ==> 0 <= x < |mem|)
    && (forall x, y :: x in S && y in S ==> Comparable(mem[x], mem[y]))
  }

  /** The row with its key at f comes before the one with its key at g: by key,
      rising or falling, and by place when the keys are equal. */
  predicate Before(mem: seq<Value>, down: bool, f: int, g: int) {
    var c := Compare(ValueAt(mem, f), ValueAt(mem, g));
    if c == 0 then f < g else if down then c > 0 else c < 0
  }

  lemma BeforeTotal(mem: seq<Value>, down: bool, S: set<int>, f: int, g: int)
    requires Keyed(mem, S) && f in S && g in S
    ensures f == g <==> !Before(mem, down, f, g) && !Before(mem, down, g, f)
    ensures !(Before(mem, down, f, g) && Before(mem, down, g, f))
  {
    if mem[f].Str? {
      LexEqual(mem[f].s, mem[g].s);
    }
  }

  lemma BeforeTrans(mem: seq<Value>, down: bool, S: set<int>, f: int, g: int, h: int)
    requires Keyed(mem, S) && f in S && g in S && h in S
    requires Before(mem, down, f, g) && Before(mem, down, g, h)
    ensures Before(mem, down, f, h)
  {
    if mem[f].Str? {
      LexEqual(mem[f].s, mem[g].s);
      LexEqual(mem[g].s, mem[h].s);
      LexEqual(mem[f].s, mem[h].s);
      if down {
        LexTrans(mem[h].s, mem[g].s, mem[f].s);
      } else {
        LexTrans(mem[f].s, mem[g].s, mem[h].s);
      }
    }
  }

  // --------------------------------------------------------------- the measure

  /** How many rows come before that at f. */
  ghost function Rank(mem: seq<Value>, down: bool, S: set<int>, f: int): (n: int)
    ensures 0 <= n <= |S|
  {
    var s := set x | x in S && Before(mem, down, x, f);
    SubsetSize(s, S);
    |s|
  }

  lemma SubsetSize(a: set<int>, b: set<int>)
    requires a <= b
    ensures |a| <= |b| && (a != b ==> |a| < |b|)
  {
    assert a * (b - a) == {} && a + (b - a) == b;
  }

  lemma RankOrder(mem: seq<Value>, down: bool, S: set<int>, f: int, g: int)
    requires Keyed(mem, S) && f in S && g in S && Before(mem, down, f, g)
    ensures Rank(mem, down, S, f) < Rank(mem, down, S, g)
  {
    var a, b := set x | x in S && Before(mem, down, x, f), set x | x in S && Before(mem, down, x, g);
    forall x | x in a
      ensures x in b
    {
      BeforeTrans(mem, down, S, x, f, g);
    }
    BeforeTotal(mem, down, S, f, f);
    assert f in b && f !in a;
    SubsetSize(a, b);
  }

  /** Greatest when the rows are in order: rank times place, summed up. */
  ghost function Score(mem: seq<Value>, down: bool, S: set<int>, t: seq<int>): (n: int)
    decreases |t|
  {
    if t == [] then 0
    else Score(mem, down, S, t[..|t| - 1]) + (|t| - 1) * Rank(mem, down, S, t[|t| - 1])
  }

  lemma {:induction false} ScoreBound(mem: seq<Value>, down: bool, S: set<int>, t: seq<int>)
    ensures 0 <= Score(mem, down, S, t) <= |t| * |t| * |S|
    decreases |t|
  {
    if t != [] {
      var n, k := |t| - 1, Rank(mem, down, S, t[|t| - 1]);
      ScoreBound(mem, down, S, t[..n]);
      Bound(n, k, |S|);
    }
  }

  lemma Bound(n: int, k: int, s: int)
    requires 0 <= n && 0 <= k <= s
    ensures 0 <= n * k && n * n * s + n * k <= (n + 1) * (n + 1) * s
  {
    assert n * k <= n * s;
    assert (n + 1) * (n + 1) * s == n * n * s + 2 * (n * s) + s;
  }

  lemma {:induction false} ScoreSet(mem: seq<Value>, down: bool, S: set<int>, t: seq<int>, i: int, v: int)
    requires 0 <= i < |t|
    ensures Score(mem, down, S, t[i := v])
         == Score(mem, down, S, t) + i * (Rank(mem, down, S, v) - Rank(mem, down, S, t[i]))
    decreases |t|
  {
    hide Rank;
    var n, u := |t| - 1, t[i := v];
    if i < n {
      ScoreSet(mem, down, S, t[..n], i, v);
      assert u[..n] == t[..n][i := v];
    } else {
      assert u[..n] == t[..n];
      assert i * (Rank(mem, down, S, v) - Rank(mem, down, S, t[i])) == i * Rank(mem, down, S, v) - i * Rank(mem, down, S, t[i]);
    }
  }

  /** Exchanging two rows that are the wrong way round brings them nearer to
      being in order, however far apart they are. */
  lemma ExchangeScore(mem: seq<Value>, down: bool, S: set<int>, t: seq<int>, i: int, j: int)
    requires Keyed(mem, S) && (forall k :: 0 <= k < |t| ==> t[k] in S) && 0 <= i < j < |t|
    requires Before(mem, down, t[j], t[i])
    ensures Score(mem, down, S, t[i := t[j]][j := t[i]]) > Score(mem, down, S, t)
  {
    hide Rank, Score, Before;
    var a, b := Rank(mem, down, S, t[i]), Rank(mem, down, S, t[j]);
    RankOrder(mem, down, S, t[j], t[i]);
    ScoreSet(mem, down, S, t, i, t[j]);
    ScoreSet(mem, down, S, t[i := t[j]], j, t[i]);
    Gain(i, j, a, b);
  }

  lemma Gain(i: int, j: int, a: int, b: int)
    requires i < j && b < a
    ensures i * (b - a) + j * (a - b) > 0
  {
    assert i * (b - a) + j * (a - b) == (j - i) * (a - b);
  }
}
