/** SORT and RSORT of an array: pointers to the sort keys are put in order by
    exchanges at a distance, then the rows are copied in that order. */
module Sorting {
  import opened Sequences
  import opened Ordering

  function AddrOf(v: Value): int {
    if v.Ptr? then v.a else -1
  }

  /** The pointers in the n cells of x from off on. */
  function Pointers(x: seq<Value>, off: int, n: int): (t: seq<int>)
    requires 0 <= off && 0 <= n && off + n <= |x|
    ensures |t| == n
  {
    seq(n, k requires 0 <= k < n => AddrOf(x[off + k]))
  }

  ghost predicate Among(t: seq<int>, S: set<int>) {
    forall i :: 0 <= i < |t| ==> t[i] in S
  }

  /** None of the first k rows and the one at the distance gap behind it are the
      wrong way round. */
  ghost predicate GapSorted(mem: seq<Value>, down: bool, t: seq<int>, gap: int, k: int) {
    forall i, j :: 0 <= i < j < |t| && i < k && j == i + gap ==> !Before(mem, down, t[j], t[i])
  }

  ghost predicate Sorted(mem: seq<Value>, down: bool, t: seq<int>) {
    forall i, j :: 0 <= i < j < |t| ==> Before(mem, down, t[i], t[j])
  }

  function Exchanged(t: seq<int>, i: int, j: int): (u: seq<int>)
    requires 0 <= i < |t| && 0 <= j < |t|
    ensures |u| == |t|
  {
    t[i := t[j]][j := t[i]]
  }

  lemma ExchangedSame(t: seq<int>, i: int, j: int, S: set<int>)
    requires 0 <= i < j < |t| && Distinct(t) && Among(t, S)
    ensures Distinct(Exchanged(t, i, j)) && Among(Exchanged(t, i, j), S)
    ensures multiset(Exchanged(t, i, j)) == multiset(t)
  {
  }

  /** Neighbours in order: all in order. */
  lemma {:induction false} OneSorted(mem: seq<Value>, down: bool, S: set<int>, t: seq<int>, i: int, j: int)
    requires Keyed(mem, S) && Among(t, S) && Distinct(t) && GapSorted(mem, down, t, 1, |t|) && 0 <= i < j < |t|
    ensures Before(mem, down, t[i], t[j])
    decreases j - i
  {
    hide Before;
    assert !Before(mem, down, t[j], t[j - 1]);
    BeforeTotal(mem, down, S, t[j - 1], t[j]);
    if i < j - 1 {
      OneSorted(mem, down, S, t, i, j - 1);
      BeforeTrans(mem, down, S, t[i], t[j - 1], t[j]);
    }
  }

  /** Keys rise, or fall with RSORT, and rows with equal keys keep their order. */
  lemma Stable(mem: seq<Value>, down: bool, t: seq<int>, i: int, j: int)
    requires Sorted(mem, down, t) && 0 <= i < j < |t|
    ensures var c := Compare(ValueAt(mem, t[i]), ValueAt(mem, t[j]));
            (if down then c >= 0 else c <= 0) && (c == 0 ==> t[i] < t[j])
  {
    assert Before(mem, down, t[i], t[j]);
  }

  /** On the keys themselves: integers rise, or fall with RSORT. */
  lemma IntegersRise(mem: seq<Value>, down: bool, t: seq<int>, i: int, j: int)
    requires Sorted(mem, down, t) && 0 <= i < j < |t|
    requires 0 <= t[i] < |mem| && 0 <= t[j] < |mem| && mem[t[i]].Int? && mem[t[j]].Int?
    ensures if down then mem[t[i]].i >= mem[t[j]].i else mem[t[i]].i <= mem[t[j]].i
    ensures mem[t[i]].i == mem[t[j]].i ==> t[i] < t[j]
  {
    assert Before(mem, down, t[i], t[j]);
  }

  /** Of two strings that are not the same the first is a beginning of the other
      or has the smaller character where they first differ; with RSORT the second
      one. */
  lemma StringsRise(mem: seq<Value>, down: bool, t: seq<int>, i: int, j: int)
    requires Sorted(mem, down, t) && 0 <= i < j < |t|
    requires 0 <= t[i] < |mem| && 0 <= t[j] < |mem| && mem[t[i]].Str? && mem[t[j]].Str?
    ensures var a, b := if down then mem[t[j]].s else mem[t[i]].s, if down then mem[t[i]].s else mem[t[j]].s;
            a == b || a < b || exists k :: 0 <= k < |a| && k < |b| && a[..k] == b[..k] && a[k] < b[k]
    ensures mem[t[i]].s == mem[t[j]].s ==> t[i] < t[j]
  {
    assert Before(mem, down, t[i], t[j]);
    var a, b := mem[t[i]].s, mem[t[j]].s;
    LexEqual(a, b);
    LexMeaning(a, b);
    LexMeaning(b, a);
  }

  /** There is only one order. */
  lemma {:induction false} SortedOnce(mem: seq<Value>, down: bool, S: set<int>, t: seq<int>, u: seq<int>)
    requires Keyed(mem, S) && Among(t, S) && Among(u, S) && Sorted(mem, down, t) && Sorted(mem, down, u)
    requires multiset(t) == multiset(u)
    ensures t == u
    decreases |t|
  {
    hide Before, Keyed;
    hide Sorted, Among;
    assert |t| == |multiset(t)| && |u| == |multiset(u)|;
    if t != [] {
      var n := |t| - 1;
      Shorter(mem, down, S, t);
      Shorter(mem, down, S, u);
      Greatest(mem, down, S, t, u);
      DropLast(t);
      DropLast(u);
      SortedOnce(mem, down, S, t[..n], u[..n]);
      assert t == t[..n] + [t[n]] && u == u[..n] + [u[n]];
    }
  }

  lemma Shorter(mem: seq<Value>, down: bool, S: set<int>, t: seq<int>)
    requires Keyed(mem, S) && Among(t, S) && Sorted(mem, down, t) && t != []
    ensures Among(t[..|t| - 1], S) && Sorted(mem, down, t[..|t| - 1])
  {
    hide Before, Keyed;
  }

  lemma DropLast(t: seq<int>)
    requires t != []
    ensures multiset(t[..|t| - 1]) == multiset(t) - multiset{t[|t| - 1]}
  {
    assert t == t[..|t| - 1] + [t[|t| - 1]];
  }

  lemma Greatest(mem: seq<Value>, down: bool, S: set<int>, t: seq<int>, u: seq<int>)
    requires Keyed(mem, S) && Among(t, S) && Among(u, S) && Sorted(mem, down, t) && Sorted(mem, down, u)
    requires multiset(t) == multiset(u) && |t| == |u| > 0
    ensures t[|t| - 1] == u[|u| - 1]
  {
    hide Before, Keyed;
    var n := |t| - 1;
    assert t[n] in multiset(u) && u[n] in multiset(t);
    var i :| 0 <= i <= n && u[i] == t[n];
    var j :| 0 <= j <= n && t[j] == u[n];
    BeforeTotal(mem, down, S, t[n], u[n]);
  }

  /** The address at which column c of row l of an array of n rows is found. */
  function At(l: int, c: int, n: int): int {
    l + c * n
  }

  lemma CellsDiffer(n: int, l: int, c: int, l': int, c': int)
    requires 0 <= l < n && 0 <= l' < n && At(l, c, n) == At(l', c', n)
    ensures l == l' && c == c'
  {
    if c > c' {
      Times(c - c', n);
      Spread(c, c', n);
    } else if c < c' {
      Times(c' - c, n);
      Spread(c', c, n);
    }
  }

  lemma Times(k: int, n: int)
    requires k >= 1 && n >= 0
    ensures k * n >= n
  {
  }

  lemma Spread(a: int, b: int, n: int)
    ensures (a - b) * n == a * n - b * n
  {
  }

  lemma CellInside(n: int, ycl: int, l: int, c: int)
    requires 0 <= l < n && 0 <= c < ycl
    ensures 0 <= At(l, c, n) < n * ycl && At(l, ycl - 1, n) == n * (ycl - 1) + l
    ensures n * (ycl - 1) + n == n * ycl && 0 <= n * (ycl - 1)
  {
    assert c * n <= (ycl - 1) * n;
    assert 0 <= c * n;
  }

  /** The addresses of n keys from z on. */
  ghost function Keys(z: int, n: int): (s: set<int>)
    requires 0 <= n
    ensures forall k :: k in s <==> z <= k < z + n
    ensures |s| == n
  {
    if n == 0 then {} else Keys(z, n - 1) + {z + n - 1}
  }

  /** The sort of an array of n rows. */
  class Sorter {
    const mem: seq<Value>        // the array to be sorted lies in here
    const n: int                 // ZCL: its rows
    const ycl: int               // its columns
    const down: bool             // SCL: RSORT
    const x: array<Value>        // the result; the pointers are its last column
    const off: int               // where that begins
    ghost const S: set<int>      // the addresses of the keys

    constructor (mem: seq<Value>, n: int, ycl: int, down: bool, z: int)
      requires 1 <= n && 1 <= ycl && 0 <= z && z + n <= |mem|
      ensures this.mem == mem && this.n == n && this.ycl == ycl && this.down == down && fresh(x)
      ensures x.Length == n * ycl && off == n * (ycl - 1) && S == Keys(z, n)
    {
      CellInside(n, ycl, 0, 0);
      this.mem, this.n, this.ycl, this.down := mem, n, ycl, down;
      x := new Value[n * ycl](_ => Other(0));
      off := n * (ycl - 1);
      S := Keys(z, n);
    }

    ghost predicate Valid()
    {
      1 <= n && 1 <= ycl && x.Length == n * ycl && off == n * (ycl - 1) && off + n == n * ycl && 0 <= off && Keyed(mem, S)
    }

    /** The pointers as they stand. */
    ghost function T(): (t: seq<int>)
      requires Valid()
      reads x
    {
      Pointers(x[..], off, n)
    }

    ghost predicate Ready()
      requires Valid()
      reads x
    {
      (forall k :: off <= k < off + n ==> x[k].Ptr?) && Among(T(), S) && Distinct(T())
    }

    /** One pass at the distance gap: how many exchanges it made. */
    method Pass(gap: int) returns (tcl: int)
      requires Valid() && Ready() && 1 <= gap < n
      modifies x
      ensures Ready() && multiset(T()) == multiset(old(T())) && tcl >= 0
      ensures tcl == 0 ==> T() == old(T()) && GapSorted(mem, down, T(), gap, n)
      ensures tcl > 0 ==> Score(mem, down, S, T()) > Score(mem, down, S, old(T()))
    {
      hide Before, GapSorted, Pointers, Ready, Score, Valid;
      tcl := 0;
      var i := 0;
      ghost var t0 := T();
      assert |t0| == n;
      GapNone(mem, down, t0, gap);
      while i < n - gap
        invariant 0 <= i <= n - gap && Ready() && multiset(T()) == multiset(t0) && tcl >= 0
        invariant tcl == 0 ==> T() == t0 && GapSorted(mem, down, t0, gap, i)
        invariant tcl > 0 ==> Score(mem, down, S, T()) > Score(mem, down, S, t0)
      {
        var moved := Step(i, i + gap);
        if moved {
          tcl := tcl + 1;
        } else if tcl == 0 {
          GapMore(mem, down, t0, gap, i);
        }
        i := i + 1;
      }
      if tcl == 0 {
        GapAll(mem, down, t0, gap, n);
      }
    }

    /** Rows i and j are exchanged if they are the wrong way round. */
    method Step(i: int, j: int) returns (moved: bool)
      requires Valid() && Ready() && 0 <= i < j < n
      modifies x
      ensures Ready() && multiset(T()) == multiset(old(T()))
      ensures !moved ==> T() == old(T()) && !Before(mem, down, T()[j], T()[i])
      ensures moved ==> Score(mem, down, S, T()) > Score(mem, down, S, old(T()))
    {
      hide Comparable, Compare, Distinct, Keyed, Pointers, Score, ValueAt;
      ghost var x0, t := x[..], T();
      PointersAt(x0, off, n, i);
      PointersAt(x0, off, n, j);
      var f1ptr, f2ptr := x[off + i].a, x[off + j].a;
      Keyed2(mem, S, t, i, j);
      moved := Wrong(f1ptr, f2ptr);
      if moved {
        x[off + i], x[off + j] := x[off + j], x[off + i];
        PointersExchanged(x0, x[..], off, n, i, j);
        ExchangedSame(t, i, j, S);
        assert forall k :: 0 <= k < |t| ==> t[k] in S;
        ExchangeScore(mem, down, S, t, i, j);
      }
    }

    /** Is the row at f2 to come before that at f1? */
    method Wrong(f1ptr: int, f2ptr: int) returns (swap: bool)
      requires 0 <= f1ptr < |mem| && 0 <= f2ptr < |mem| && Comparable(mem[f1ptr], mem[f2ptr]) && f1ptr != f2ptr
      ensures swap <==> Before(mem, down, f2ptr, f1ptr)
      ensures mem[f1ptr].Int? ==>
                var i, j := mem[f1ptr].i, mem[f2ptr].i; swap <==> if i == j then f2ptr < f1ptr else if down then i < j else j < i
    {
      var a1ptr, a2ptr := mem[f1ptr], mem[f2ptr];
      var c;
      if a1ptr.Str? {
        c := Lexcmp(a1ptr.s, a2ptr.s);
        LexEqual(a1ptr.s, a2ptr.s);
      } else {
        c := if a1ptr.i < a2ptr.i then -1 else if a1ptr.i == a2ptr.i then 0 else 1;
      }
      if c == 0 {
        swap := !(f1ptr <= f2ptr);
      } else if c > 0 {
        swap := !down;
      } else {
        swap := down;
      }
    }

    /** Passes at one distance until nothing is exchanged any more. */
    method Passes(gap: int)
      requires Valid() && Ready() && 1 <= gap < n
      modifies x
      ensures Ready() && multiset(T()) == multiset(old(T())) && GapSorted(mem, down, T(), gap, n)
    {
      hide GapSorted, Pointers, Ready, Score, Valid;
      ghost var t0 := T();
      ScoreBound(mem, down, S, T());
      assert |T()| == n;
      var tcl := Pass(gap);
      while tcl != 0
        invariant Ready() && multiset(T()) == multiset(t0)
        invariant tcl == 0 ==> GapSorted(mem, down, T(), gap, n)
        decreases n * n * |S| - Score(mem, down, S, T()), if tcl == 0 then 0 else 1
      {
        ScoreBound(mem, down, S, T());
        assert |T()| == n;
        tcl := Pass(gap);
        ScoreBound(mem, down, S, T());
        assert |T()| == n;
      }
    }

    /** Distances are halved until neighbours are compared. */
    method Order()
      requires Valid() && Ready()
      modifies x
      ensures Ready() && multiset(T()) == multiset(old(T())) && Sorted(mem, down, T())
    {
      hide Among, Distinct, GapSorted, Keyed, Pointers, Sorted;
      assert |T()| == n && Distinct(T()) && Among(T(), S);
      var gap := n;
      GapFar(mem, down, T(), n);
      ghost var t0 := T();
      while gap > 1
        invariant 1 <= gap <= n && Ready() && multiset(T()) == multiset(t0) && GapSorted(mem, down, T(), gap, n)
      {
        gap := gap / 2;
        Passes(gap);
      }
      assert |T()| == n && Distinct(T()) && Among(T(), S);
      AllSorted(mem, down, S, T());
    }

    // -------------------------------------------------------------- whole rows

    /** Row l of the result holds the row of mem that begins at z and whose
        columns are a4 apart. */
    ghost predicate RowAt(l: int, z: int, a4: int)
      requires Valid() && 0 <= l < n
      reads x
    {
      RowOf(x[..], mem, n, ycl, l, z, a4)
    }

    /** The pointers to the keys, in the order of the rows. */
    method Fill(z: int)
      requires Valid() && S == Keys(z, n)
      modifies x
      ensures Ready() && T() == Rising(z, n)
    {
      var xcl, zptr := 0, z;
      while xcl != n
        invariant 0 <= xcl <= n && zptr == z + xcl
        invariant forall k :: off <= k < off + xcl ==> x[k] == Ptr(z + k - off)
      {
        x[off + xcl] := Ptr(zptr);
        xcl, zptr := xcl + 1, zptr + 1;
      }
      Filled(x[..], off, n, z);
      assert forall k :: off <= k < off + n ==> x[k].Ptr?;
    }

    /** Row l is copied; its pointer lies in its own last column. */
    method CopyRow(l: int, zptr: int, a4: int)
      requires Valid() && 0 <= l < n && forall c :: 0 <= c < ycl ==> 0 <= Source(zptr, c, a4) < |mem|
      modifies x
      ensures RowAt(l, zptr, a4)
      ensures forall q :: 0 <= q < x.Length && !InRow(q, l) ==> x[q] == old(x[q])
    {
      hide At, IsCell, Keyed, RowOf, RowTo, Source;
      ghost var x0 := x[..];
      var z, yptr, c := zptr, l, 0;
      RowStart(x0, mem, n, ycl, l, zptr, a4);
      while c < ycl
        invariant 0 <= c <= ycl && yptr == At(l, c, n) && z == Source(zptr, c, a4)
        invariant RowTo(x0, x[..], mem, n, ycl, l, zptr, a4, c)
      {
        CellInside(n, ycl, l, c);
        ghost var x1 := x[..];
        x[yptr] := mem[z];
        RowNext(x0, x1, x[..], mem, n, ycl, l, zptr, a4, c);
        z, yptr, c := z + a4, yptr + n, c + 1;
      }
      RowEnd(x0, x[..], mem, n, ycl, l, zptr, a4);
      assert forall q :: 0 <= q < x.Length && !InRow(q, l) ==> x[q] == old(x[q]);
    }

    ghost predicate InRow(q: int, l: int) {
      IsCell(n, ycl, l, q)
    }

    /** The rows' pointers from row l on are still there. */
    ghost predicate Waiting(l: int, t: seq<int>)
      requires Valid() && |t| == n && 0 <= l
      reads x
    {
      forall q :: off + l <= q < off + n ==> x[q] == Ptr(t[q - off])
    }

    /** All columns of the row that begins at z lie within mem. */
    ghost predicate Inside(z: int, a4: int) {
      forall c :: 0 <= c < ycl ==> 0 <= Source(z, c, a4) < |mem|
    }

    /** All rows, in the order of the pointers. */
    method CopyRows(a5: int, a4: int, ghost t: seq<int>)
      requires Valid() && |t| == n && Waiting(0, t) && forall l :: 0 <= l < n ==> Inside(t[l] - a5, a4)
      modifies x
      ensures RowsOf(x[..], mem, n, ycl, t, n, a5, a4)
    {
      hide IsCell, Keyed, RowOf, Source;
      var l := 0;
      assert RowsOf(x[..], mem, n, ycl, t, 0, a5, a4);
      while l < n
        invariant 0 <= l <= n && Waiting(l, t) && RowsOf(x[..], mem, n, ycl, t, l, a5, a4)
      {
        assert x[off + l] == Ptr(t[l]);
        ghost var x2 := x[..];
        assert Inside(t[l] - a5, a4);
        CopyRow(l, x[off + l].a - a5, a4);
        assert forall q :: 0 <= q < x.Length && !IsCell(n, ycl, l, q) ==> x[..][q] == x2[q];
        TailKept(x2, x[..], n, ycl, l);
        assert Waiting(l + 1, t);
        assert RowOf(x[..], mem, n, ycl, l, t[l] - a5, a4);
        NextRow(x2, x[..], mem, n, ycl, t, l, a5, a4);
        l := l + 1;
      }
    }

    /** SORT1: the result holds the rows of the array, in the order t of their
        keys; z is the address of the first key, a5 behind the first column. */
    method Sort(z: int, a5: int, a4: int) returns (ghost t: seq<int>)
      requires Valid() && S == Keys(z, n) && forall f :: f in S ==> Inside(f - a5, a4)
      modifies x
      ensures |t| == n && multiset(t) == multiset(Rising(z, n)) && Sorted(mem, down, t)
      ensures RowsOf(x[..], mem, n, ycl, t, n, a5, a4)
      ensures forall i, j :: 0 <= i < j < n && 0 <= t[i] < |mem| && 0 <= t[j] < |mem| && mem[t[i]].Int? && mem[t[j]].Int? ==>
                if down then mem[t[i]].i >= mem[t[j]].i else mem[t[i]].i <= mem[t[j]].i
    {
      hide Distinct, Inside, Keyed, Keys, Pointers, Rising, RowsOf, Sorted;
      Fill(z);
      Order();
      t := T();
      assert |t| == n && Among(t, S);
      assert Waiting(0, t) by {
        PointersAll(x[..], off, n);
      }
      assert forall l :: 0 <= l < n ==> Inside(t[l] - a5, a4);
      CopyRows(a5, a4, t);
      forall i, j | 0 <= i < j < n && 0 <= t[i] < |mem| && 0 <= t[j] < |mem| && mem[t[i]].Int? && mem[t[j]].Int?
        ensures if down then mem[t[i]].i >= mem[t[j]].i else mem[t[i]].i <= mem[t[j]].i
      {
        IntegersRise(mem, down, t, i, j);
      }
    }
  }

  /** z and the numbers after it. */
  function Rising(z: int, n: int): (t: seq<int>)
    requires 0 <= n
    ensures |t| == n
  {
    seq(n, k => z + k)
  }

  /** Column c of the row that begins at z. */
  function Source(z: int, c: int, a4: int): int {
    z + c * a4
  }

  ghost predicate IsCell(n: int, ycl: int, l: int, q: int) {
    exists c :: 0 <= c < ycl && q == At(l, c, n)
  }

  ghost predicate RowOf(x: seq<Value>, mem: seq<Value>, n: int, ycl: int, l: int, z: int, a4: int) {
    forall c :: 0 <= c < ycl ==> ValueAt(x, At(l, c, n)) == ValueAt(mem, Source(z, c, a4))
  }

  /** The first k columns of row l have been copied, and nothing else. */
  ghost predicate RowTo(x0: seq<Value>, x: seq<Value>, mem: seq<Value>, n: int, ycl: int, l: int, z: int, a4: int, k: int) {
    && |x| == |x0|
    && (forall c :: 0 <= c < k ==> ValueAt(x, At(l, c, n)) == ValueAt(mem, Source(z, c, a4)))
    && (forall q :: 0 <= q < |x| && !IsCell(n, ycl, l, q) ==> x[q] == x0[q])
  }

  lemma Filled(x: seq<Value>, off: int, n: int, z: int)
    requires 0 <= off && 0 <= n && off + n <= |x| && forall k :: off <= k < off + n ==> x[k] == Ptr(z + k - off)
    ensures Pointers(x, off, n) == Rising(z, n)
    ensures Distinct(Rising(z, n)) && Among(Rising(z, n), Keys(z, n))
  {
    var t, u := Pointers(x, off, n), Rising(z, n);
    forall k | 0 <= k < n
      ensures t[k] == u[k]
    {
      assert x[off + k] == Ptr(z + k);
      assert t[k] == AddrOf(x[off + k]);
    }
  }

  lemma RowStart(x0: seq<Value>, mem: seq<Value>, n: int, ycl: int, l: int, z: int, a4: int)
    ensures RowTo(x0, x0, mem, n, ycl, l, z, a4, 0) && At(l, 0, n) == l && Source(z, 0, a4) == z
  {
  }

  lemma RowNext(x0: seq<Value>, x1: seq<Value>, x: seq<Value>, mem: seq<Value>, n: int, ycl: int, l: int, z: int, a4: int, k: int)
    requires RowTo(x0, x1, mem, n, ycl, l, z, a4, k) && 0 <= k < ycl && 0 <= l < n && 0 <= At(l, k, n) < |x1|
    requires 0 <= Source(z, k, a4) < |mem| && x == x1[At(l, k, n) := mem[Source(z, k, a4)]]
    ensures RowTo(x0, x, mem, n, ycl, l, z, a4, k + 1)
    ensures At(l, k + 1, n) == At(l, k, n) + n && Source(z, k + 1, a4) == Source(z, k, a4) + a4
  {
    Stride(l, k, n);
    Stride(z, k, a4);
    forall c | 0 <= c < k + 1
      ensures ValueAt(x, At(l, c, n)) == ValueAt(mem, Source(z, c, a4))
    {
      if c < k && At(l, c, n) == At(l, k, n) {
        CellsDiffer(n, l, c, l, k);
      }
    }
    forall q | 0 <= q < |x| && !IsCell(n, ycl, l, q)
      ensures x[q] == x0[q]
    {
      assert q != At(l, k, n);
    }
  }

  lemma Stride(a: int, k: int, n: int)
    ensures a + (k + 1) * n == a + k * n + n
  {
  }

  lemma RowEnd(x0: seq<Value>, x: seq<Value>, mem: seq<Value>, n: int, ycl: int, l: int, z: int, a4: int)
    requires RowTo(x0, x, mem, n, ycl, l, z, a4, ycl)
    ensures RowOf(x, mem, n, ycl, l, z, a4)
    ensures forall q :: 0 <= q < |x| && !IsCell(n, ycl, l, q) ==> x[q] == x0[q]
  {
  }

  /** The pointers that are still needed lie in other rows. */
  lemma TailKept(x0: seq<Value>, x: seq<Value>, n: int, ycl: int, l: int)
    requires 0 <= l < n && 1 <= ycl && |x| == |x0| == n * ycl
    requires forall q :: 0 <= q < |x| && !IsCell(n, ycl, l, q) ==> x[q] == x0[q]
    ensures n * (ycl - 1) >= 0 && forall q :: n * (ycl - 1) + l < q < n * ycl ==> x[q] == x0[q]
  {
    CellInside(n, ycl, l, 0);
    forall q | n * (ycl - 1) + l < q < n * ycl
      ensures x[q] == x0[q]
    {
      var k := q - n * (ycl - 1);
      CellInside(n, ycl, k, 0);
      forall c | 0 <= c < ycl
        ensures q != At(l, c, n)
      {
        if At(k, ycl - 1, n) == At(l, c, n) {
          CellsDiffer(n, k, ycl - 1, l, c);
        }
      }
    }
  }

  /** Each of the first m rows is a row of the array, the one whose key is that of t. */
  ghost predicate RowsOf(x: seq<Value>, mem: seq<Value>, n: int, ycl: int, t: seq<int>, m: int, a5: int, a4: int) {
    m <= |t| && forall l :: 0 <= l < m ==> RowOf(x, mem, n, ycl, l, t[l] - a5, a4)
  }

  lemma NextRow(x0: seq<Value>, x: seq<Value>, mem: seq<Value>, n: int, ycl: int, t: seq<int>, l: int, a5: int, a4: int)
    requires RowsOf(x0, mem, n, ycl, t, l, a5, a4) && 0 <= l < n == |t| && 1 <= ycl && |x| == |x0|
    requires forall q :: 0 <= q < |x| && !IsCell(n, ycl, l, q) ==> x[q] == x0[q]
    requires RowOf(x, mem, n, ycl, l, t[l] - a5, a4)
    ensures RowsOf(x, mem, n, ycl, t, l + 1, a5, a4)
  {
    hide RowOf, IsCell;
    forall k | 0 <= k < l
      ensures RowOf(x, mem, n, ycl, k, t[k] - a5, a4)
    {
      OtherRow(x0, x, mem, n, ycl, l, k, t[k] - a5, a4);
    }
  }

  lemma OtherRow(x0: seq<Value>, x: seq<Value>, mem: seq<Value>, n: int, ycl: int, l: int, k: int, z: int, a4: int)
    requires RowOf(x0, mem, n, ycl, k, z, a4) && 0 <= k < l < n && 1 <= ycl && |x| == |x0|
    requires forall q :: 0 <= q < |x| && !IsCell(n, ycl, l, q) ==> x[q] == x0[q]
    ensures RowOf(x, mem, n, ycl, k, z, a4)
  {
    forall c | 0 <= c < ycl
      ensures ValueAt(x, At(k, c, n)) == ValueAt(x0, At(k, c, n))
    {
      forall d | 0 <= d < ycl
        ensures At(k, c, n) != At(l, d, n)
      {
        if At(k, c, n) == At(l, d, n) {
          CellsDiffer(n, k, c, l, d);
        }
      }
      assert !IsCell(n, ycl, l, At(k, c, n));
    }
  }

  /** Cell by cell: row l of the result is the row of the array whose key is the
      l-th in order. */
  lemma RowsCells(x: seq<Value>, mem: seq<Value>, n: int, ycl: int, t: seq<int>, a5: int, a4: int, l: int, c: int)
    requires RowsOf(x, mem, n, ycl, t, n, a5, a4) && |t| == n && |x| == n * ycl && 0 <= l < n && 0 <= c < ycl
    requires 0 <= t[l] - a5 + c * a4 < |mem|
    ensures 0 <= l + c * n < |x| && x[l + c * n] == mem[t[l] - a5 + c * a4]
  {
    CellInside(n, ycl, l, c);
    assert RowOf(x, mem, n, ycl, l, t[l] - a5, a4);
    assert ValueAt(x, At(l, c, n)) == ValueAt(mem, Source(t[l] - a5, c, a4));
  }

  /** The result has its keys, integers in column c, in order. */
  lemma ResultRises(x: seq<Value>, mem: seq<Value>, down: bool, n: int, ycl: int, t: seq<int>, a5: int, a4: int, c: int,
                    l: int, k: int)
    requires RowsOf(x, mem, n, ycl, t, n, a5, a4) && |t| == n && |x| == n * ycl && Sorted(mem, down, t)
    requires 0 <= c < ycl && a5 == c * a4 && 0 <= l < k < n && 0 <= t[l] < |mem| && 0 <= t[k] < |mem|
    requires mem[t[l]].Int? && mem[t[k]].Int?
    ensures 0 <= l + c * n < k + c * n < |x| && x[l + c * n] == mem[t[l]] && x[k + c * n] == mem[t[k]]
    ensures if down then x[l + c * n].i >= x[k + c * n].i else x[l + c * n].i <= x[k + c * n].i
  {
    hide Before, RowsOf;
    RowsCells(x, mem, n, ycl, t, a5, a4, l, c);
    RowsCells(x, mem, n, ycl, t, a5, a4, k, c);
    IntegersRise(mem, down, t, l, k);
  }

  lemma PointersAll(x: seq<Value>, off: int, n: int)
    requires 0 <= off && 0 <= n && off + n <= |x| && forall k :: off <= k < off + n ==> x[k].Ptr?
    ensures forall q :: off <= q < off + n ==> x[q] == Ptr(Pointers(x, off, n)[q - off])
  {
    forall q | off <= q < off + n
      ensures x[q] == Ptr(Pointers(x, off, n)[q - off])
    {
      PointersAt(x, off, n, q - off);
    }
  }

  lemma GapNone(mem: seq<Value>, down: bool, t: seq<int>, gap: int)
    ensures GapSorted(mem, down, t, gap, 0)
  {
  }

  lemma GapFar(mem: seq<Value>, down: bool, t: seq<int>, n: int)
    requires |t| == n
    ensures GapSorted(mem, down, t, n, n)
  {
  }

  lemma GapMore(mem: seq<Value>, down: bool, t: seq<int>, gap: int, i: int)
    requires GapSorted(mem, down, t, gap, i) && 0 <= i < i + gap < |t| && !Before(mem, down, t[i + gap], t[i])
    ensures GapSorted(mem, down, t, gap, i + 1)
  {
  }

  lemma GapAll(mem: seq<Value>, down: bool, t: seq<int>, gap: int, n: int)
    requires GapSorted(mem, down, t, gap, n - gap) && |t| == n
    ensures GapSorted(mem, down, t, gap, n)
  {
  }

  lemma AllSorted(mem: seq<Value>, down: bool, S: set<int>, t: seq<int>)
    requires Keyed(mem, S) && Among(t, S) && Distinct(t) && GapSorted(mem, down, t, 1, |t|)
    ensures Sorted(mem, down, t)
  {
    hide Before, Keyed, GapSorted;
    forall i, j | 0 <= i < j < |t|
      ensures Before(mem, down, t[i], t[j])
    {
      OneSorted(mem, down, S, t, i, j);
    }
  }

  lemma PointersAt(x: seq<Value>, off: int, n: int, i: int)
    requires 0 <= off && 0 <= i < n && off + n <= |x| && x[off + i].Ptr?
    ensures Pointers(x, off, n)[i] == x[off + i].a
  {
    assert AddrOf(x[off + i]) == x[off + i].a;
    var t := Pointers(x, off, n);
    assert t[i] == AddrOf(x[off + i]);
  }

  lemma Keyed2(mem: seq<Value>, S: set<int>, t: seq<int>, i: int, j: int)
    requires Keyed(mem, S) && Among(t, S) && Distinct(t) && 0 <= i < j < |t|
    ensures 0 <= t[i] < |mem| && 0 <= t[j] < |mem| && Comparable(mem[t[i]], mem[t[j]]) && t[i] != t[j]
  {
  }

  lemma PointersExchanged(x: seq<Value>, y: seq<Value>, off: int, n: int, i: int, j: int)
    requires 0 <= off && 0 <= i < j < n && off + n <= |x| == |y|
    requires y == x[off + i := x[off + j]][off + j := x[off + i]]
    ensures Pointers(y, off, n) == Exchanged(Pointers(x, off, n), i, j)
  {
  }
}
