/** A table made into an array of two columns, and such an array into a table. */
module Conversion {
  import opened Tables

  datatype Pair = Pair(key: Cell, value: Cell)

  /** The pairs of an extent, from cell a on, whose value is not null. */
  ghost function PairsOf(e: seq<Cell>, a: nat): (r: seq<Pair>)
    decreases |e| - a
  {
    if a > |e| - 5 then []
    else (if e[a + 1] == Null then [] else [Pair(e[a + 2], e[a + 1])]) + PairsOf(e, a + 2)
  }

  /** Those of the chain from extent i on. */
  ghost function Held(t: seq<seq<Cell>>, i: nat): seq<Pair>
    decreases |t| - i
  {
    if i >= |t| then [] else PairsOf(t[i], 0) + Held(t, i + 1)
  }

  /** The keys are in the first column, the values in the second. */
  ghost predicate Columns(z: seq<Cell>, h: seq<Pair>) {
    |z| == 5 + 2 * |h| && forall p :: 0 <= p < |h| ==> z[5 + p] == h[p].key && z[5 + |h| + p] == h[p].value
  }

  /** The head of an array with n rows of two columns. */
  predicate Head(z: seq<Cell>, n: int) {
    && n >= 0 && |z| == 5 + 2 * n && z[0] == Zero && z[1] == Prototype(n, 2) && z[2] == Dimensions(2)
    && z[3] == Dimension(1, 2) && z[4] == Dimension(1, n)
  }

  /** ICNVTA: the pairs are counted, each extent from its end. */
  method Count(t: seq<seq<Cell>>) returns (n: nat)
    requires Chain(t)
    ensures n == |Held(t, 0)|
  {
    hide ExtentOk;
    var i := 0;
    n := 0;
    while true
      invariant 0 <= i < |t| && n + |Held(t, i)| == |Held(t, 0)|
      decreases |t| - i
    {
      Links(t, i);
      var e := t[i];
      var xcl := Last(e) - 3;
      ghost var before := n;
      assert PairsOf(e, xcl + 1) == [];
      while true
        invariant 1 <= xcl <= |e| - 4 && xcl % 2 == 1 && n == before + |PairsOf(e, xcl + 1)|
        decreases xcl
      {
        if e[xcl] != Null {
          n := n + 1;
        }
        assert n == before + |PairsOf(e, xcl - 1)|;
        if xcl == 1 {
          break;
        }
        xcl := xcl - 2;
      }
      if e[Last(e)] == One {
        assert Held(t, i + 1) == [];
        return;
      }
      i := e[Last(e)].i;
    }
  }

  lemma Links(t: seq<seq<Cell>>, i: int)
    requires Chain(t) && 0 <= i < |t|
    ensures |t[i]| >= 5 && |t[i]| % 2 == 1 && Last(t[i]) == |t[i]| - 1
    ensures t[i][Last(t[i])] == if i + 1 < |t| then Next(i + 1) else One
  {
    assert ExtentOk(t[i]);
  }

  /** Rows up to y are filled from the pairs h. */
  ghost predicate Filled(z: seq<Cell>, h: seq<Pair>, n: int, y: int) {
    && 0 <= y <= |h| && |h| == n && |z| == 5 + 2 * n
    && forall p :: 0 <= p < y ==> z[5 + p] == h[p].key && z[5 + n + p] == h[p].value
  }

  /** CNVTA: the head, then both columns filled in the order of the chain. */
  method Cnvta(t: seq<seq<Cell>>) returns (ok: bool, z: seq<Cell>)
    requires Chain(t)
    ensures ok <==> Held(t, 0) != []
    ensures ok ==> Head(z, |Held(t, 0)|) && Columns(z, Held(t, 0))
  {
    hide Columns, ExtentOk, Filled, Head, Held, Last, PairsOf;
    var n := Count(t);
    ghost var h := Held(t, 0);
    if n == 0 {
      return false, [];
    }
    var b := new Cell[5 + 2 * n](_ => Zero);
    b[1], b[2], b[3], b[4] := Prototype(n, 2), Dimensions(2), Dimension(1, 2), Dimension(1, n);
    NoRows(b[..], h, n);
    assert t != [];
    var y, i := 0, 0;
    while true
      invariant 0 <= i < |t| && 0 <= y <= |h| && Filled(b[..], h, n, y) && h[y..] == Held(t, i) && Head(b[..], n)
      decreases |t| - i
    {
      Links(t, i);
      HeldFrom(t, i);
      var e := t[i];
      y := CopyPairs(b, e, n, y, h, Held(t, i + 1));
      if e[Last(e)] == One {
        break;
      }
      i := e[Last(e)].i;
    }
    AllRows(b[..], h, n, y);
    ok, z := true, b[..];
  }

  lemma NoRows(z: seq<Cell>, h: seq<Pair>, n: int)
    requires n == |h| && |z| == 5 + 2 * n && z[0] == Zero && z[1] == Prototype(n, 2) && z[2] == Dimensions(2)
    requires z[3] == Dimension(1, 2) && z[4] == Dimension(1, n)
    ensures Filled(z, h, n, 0) && Head(z, n)
  {
  }

  lemma AllRows(z: seq<Cell>, h: seq<Pair>, n: int, y: int)
    requires 0 <= y <= |h| && Filled(z, h, n, y) && h[y..] == []
    ensures Columns(z, h)
  {
  }

  lemma HeldFrom(t: seq<seq<Cell>>, i: nat)
    requires i < |t|
    ensures Held(t, i) == PairsOf(t[i], 0) + Held(t, i + 1) && (i + 1 == |t| ==> Held(t, i + 1) == [])
  {
  }

  /** The pairs of one extent become the next rows. */
  method CopyPairs(b: array<Cell>, e: seq<Cell>, n: int, y0: int, ghost h: seq<Pair>, ghost rest: seq<Pair>) returns (y: int)
    requires |e| >= 5 && |e| % 2 == 1 && Filled(b[..], h, n, y0) && Head(b[..], n) && h[y0..] == PairsOf(e, 0) + rest
    modifies b
    ensures 0 <= y <= |h| && Filled(b[..], h, n, y) && Head(b[..], n) && h[y..] == rest
  {
    hide Head, PairsOf;
    y := y0;
    var w := 0;
    assert 0 <= y <= |h|;
    while true
      invariant 0 <= w <= |e| - 5 && w % 2 == 0 && 0 <= y <= |h|
      invariant Filled(b[..], h, n, y) && h[y..] == PairsOf(e, w) + rest && Head(b[..], n)
      decreases |e| - w
    {
      NextPair(e, w);
      if e[w + 1] != Null {
        assert h[y..] == [Pair(e[w + 2], e[w + 1])] + (PairsOf(e, w + 2) + rest);
        assert y < |h| && h[y] == h[y..][0] == Pair(e[w + 2], e[w + 1]);
        assert h[y + 1..] == h[y..][1..] == PairsOf(e, w + 2) + rest;
        ghost var z := b[..];
        NextRow(z, h, n, y);
        b[5 + n + y] := e[w + 1];
        b[5 + y] := e[w + 2];
        assert b[..] == z[5 + n + y := h[y].value][5 + y := h[y].key];
        y := y + 1;
      } else {
        assert PairsOf(e, w) == PairsOf(e, w + 2);
      }
      w := w + 2;
      if w == |e| - 3 {
        break;
      }
    }
    NoMore(e, w);
    assert h[y..] == rest;
  }

  lemma NextRow(z: seq<Cell>, h: seq<Pair>, n: int, y: int)
    requires Filled(z, h, n, y) && Head(z, n) && 0 <= y < |h|
    ensures |h| == n && |z| == 5 + 2 * n
    ensures var u := z[5 + n + y := h[y].value][5 + y := h[y].key];
            Filled(u, h, n, y + 1) && Head(u, n)
  {
  }

  lemma NextPair(e: seq<Cell>, w: nat)
    requires w <= |e| - 5
    ensures PairsOf(e, w) == (if e[w + 1] == Null then [] else [Pair(e[w + 2], e[w + 1])]) + PairsOf(e, w + 2)
  {
  }

  lemma NoMore(e: seq<Cell>, w: nat)
    requires w > |e| - 5
    ensures PairsOf(e, w) == []
  {
  }

  /** The extent made from an array of n rows: the pairs of its rows in order,
      and nothing free. */
  ghost predicate FromRows(e: seq<Cell>, z: seq<Cell>, n: int) {
    && n >= 1 && |z| == 5 + 2 * n && |e| == 2 * n + 3 && e[2 * n + 2] == One && e[2 * n + 1] == Size(22) && e[0] == Zero
    && forall p :: 0 <= p < n ==> Row(e, z, n, p)
  }

  ghost predicate Row(e: seq<Cell>, z: seq<Cell>, n: int, p: int) {
    0 <= p < n && |z| == 5 + 2 * n && |e| == 2 * n + 3 && e[2 * p + 1] == z[5 + n + p] && e[2 * p + 2] == z[5 + p]
  }

  /** CNVAT: one extent, which has room for the rows only. */
  method Cnvat(z: seq<Cell>) returns (ok: bool, e: seq<Cell>)
    requires |z| >= 5 && z[2].Dimensions?
    requires z[2].n == 2 ==> z[3].Dimension?
    requires z[2].n == 2 && z[3].extent == 2 ==> z[4].Dimension? && z[4].extent >= 1 && |z| == 5 + 2 * z[4].extent
    ensures ok <==> z[2].n == 2 && z[3].extent == 2
    ensures ok ==> FromRows(e, z, z[4].extent)
  {
    if z[2].n != 2 {
      return false, [];
    }
    if z[3].extent != 2 {
      return false, [];
    }
    var size := |z| - 1 - 2;
    var b := new Cell[size + 1](_ => Zero);
    b[size] := One;
    b[size - 1] := Size(22);
    var n := z[4].extent;
    var y, w, x, left := 5, 5 + n, 0, n;
    while true
      invariant 1 <= left <= n && y == 5 + n - left && w == y + n && x == 2 * (n - left) && |z| == 5 + 2 * n
      invariant b[size] == One && b[size - 1] == Size(22) && b[0] == Zero
      invariant forall p :: 0 <= p < n - left ==> Row(b[..], z, n, p)
      decreases left
    {
      ghost var before := b[..];
      b[x + 1] := z[w];
      b[x + 2] := z[y];
      NextCells(before, b[..], z, n, n - left);
      left := left - 1;
      if left == 0 {
        break;
      }
      x, w, y := x + 2, w + 1, y + 1;
    }
    ok, e := true, b[..];
  }

  lemma NextCells(d: seq<Cell>, e: seq<Cell>, z: seq<Cell>, n: int, p: int)
    requires 0 <= p < n && |z| == 5 + 2 * n && |d| == 2 * n + 3
    requires e == d[2 * p + 1 := z[5 + n + p]][2 * p + 2 := z[5 + p]] && forall q :: 0 <= q < p ==> Row(d, z, n, q)
    ensures forall q :: 0 <= q <= p ==> Row(e, z, n, q)
  {
    forall q | 0 <= q <= p
      ensures Row(e, z, n, q)
    {
      assert q < p ==> Row(d, z, n, q);
    }
  }

  /** A pair of the extent at cell a or after it. */
  ghost predicate InExtent(e: seq<Cell>, a: int, x: Pair) {
    exists b :: a <= b && IsSlot(e, b) && PairOk(e, b) && x == Pair(e[b + 2], e[b + 1]) && x.value != Null
  }

  lemma {:induction false} PairsOfExtent(e: seq<Cell>, a: nat, x: Pair)
    requires ExtentOk(e) && a % 2 == 0
    ensures x in PairsOf(e, a) <==> InExtent(e, a, x)
    decreases |e| - a
  {
    if a <= |e| - 5 {
      hide *;
      PairsOfExtent(e, a + 2, x);
      NextPair(e, a);
      NextSlot(e, a, x);
    }
  }

  lemma NextSlot(e: seq<Cell>, a: nat, x: Pair)
    requires ExtentOk(e) && a % 2 == 0 && a <= |e| - 5
    ensures InExtent(e, a, x) <==> (x == Pair(e[a + 2], e[a + 1]) && x.value != Null) || InExtent(e, a + 2, x)
  {
    assert IsSlot(e, a) && PairOk(e, a);
    if InExtent(e, a, x) {
      var b :| a <= b && IsSlot(e, b) && PairOk(e, b) && x == Pair(e[b + 2], e[b + 1]) && x.value != Null;
      assert b == a || a + 2 <= b;
    }
  }

  /** A pair of the chain, in extent i or after it. */
  ghost predicate InChain(t: seq<seq<Cell>>, i: int, x: Pair) {
    exists j, b :: i <= j && At(t, j, b, x.key) && x.value == t[j][b + 1] && x.value != Null
  }

  lemma {:induction false} HeldInChain(t: seq<seq<Cell>>, i: nat, x: Pair)
    requires Chain(t)
    ensures x in Held(t, i) <==> InChain(t, i, x)
    decreases |t| - i
  {
    if i < |t| {
      HeldInChain(t, i + 1, x);
      assert ExtentOk(t[i]);
      PairsOfExtent(t[i], 0, x);
      if InExtent(t[i], 0, x) {
        var b :| 0 <= b && IsSlot(t[i], b) && PairOk(t[i], b) && x == Pair(t[i][b + 2], t[i][b + 1]) && x.value != Null;
        assert At(t, i, b, x.key);
      }
      if InChain(t, i, x) && !InChain(t, i + 1, x) {
        var j, b :| i <= j && At(t, j, b, x.key) && x.value == t[j][b + 1] && x.value != Null;
        assert j == i;
      }
    }
  }

  ghost predicate DistinctKeys(h: seq<Pair>) {
    forall p, q :: 0 <= p < q < |h| ==> h[p].key != h[q].key
  }

  lemma DistinctSum(h: seq<Pair>, g: seq<Pair>)
    requires DistinctKeys(h) && DistinctKeys(g) && forall x, y :: x in h && y in g ==> x.key != y.key
    ensures DistinctKeys(h + g)
  {
    forall p, q | 0 <= p < q < |h + g|
      ensures (h + g)[p].key != (h + g)[q].key
    {
      if p < |h| <= q {
        assert h[p] in h && g[q - |h|] in g;
      }
    }
  }

  lemma {:induction false} ExtentDistinct(t: seq<seq<Cell>>, i: nat, a: nat)
    requires TableOk(t) && i < |t| && a % 2 == 0
    ensures DistinctKeys(PairsOf(t[i], a))
    decreases |t[i]| - a
  {
    var e := t[i];
    assert ExtentOk(e);
    if a <= |e| - 5 {
      ExtentDistinct(t, i, a + 2);
      NextPair(e, a);
      assert IsSlot(e, a) && PairOk(e, a) && At(t, i, a, e[a + 2]);
      if e[a + 1] != Null {
        forall y | y in PairsOf(e, a + 2)
          ensures y.key != e[a + 2]
        {
          PairsOfExtent(e, a + 2, y);
          var b :| a + 2 <= b && IsSlot(e, b) && PairOk(e, b) && y == Pair(e[b + 2], e[b + 1]) && y.value != Null;
          assert At(t, i, b, y.key);
        }
        DistinctSum([Pair(e[a + 2], e[a + 1])], PairsOf(e, a + 2));
      } else {
        assert PairsOf(e, a) == PairsOf(e, a + 2);
      }
    }
  }

  /** No key is twice among the pairs of a table. */
  lemma {:induction false} HeldDistinct(t: seq<seq<Cell>>, i: nat)
    requires TableOk(t)
    ensures DistinctKeys(Held(t, i))
    decreases |t| - i
  {
    if i < |t| {
      HeldDistinct(t, i + 1);
      ExtentDistinct(t, i, 0);
      assert ExtentOk(t[i]);
      forall x, y | x in PairsOf(t[i], 0) && y in Held(t, i + 1)
        ensures x.key != y.key
      {
        PairsOfExtent(t[i], 0, x);
        HeldInChain(t, i + 1, y);
        var b :| 0 <= b && IsSlot(t[i], b) && PairOk(t[i], b) && x == Pair(t[i][b + 2], t[i][b + 1]) && x.value != Null;
        var j, c :| i + 1 <= j && At(t, j, c, y.key) && y.value == t[j][c + 1] && y.value != Null;
        assert At(t, i, b, x.key) && x.key != Zero;
      }
      DistinctSum(PairsOf(t[i], 0), Held(t, i + 1));
    }
  }

  /** The extent made from rows holds them, from row p on, in order. */
  lemma {:induction false} RowsHeld(e: seq<Cell>, z: seq<Cell>, h: seq<Pair>, p: nat)
    requires FromRows(e, z, |h|) && Columns(z, h) && p <= |h| && forall x :: x in h ==> x.value != Null
    ensures PairsOf(e, 2 * p) == h[p..]
    decreases |h| - p
  {
    if p < |h| {
      RowsHeld(e, z, h, p + 1);
      assert Row(e, z, |h|, p) && h[p] in h;
      assert h[p..] == [h[p]] + h[p + 1..];
      NextPair(e, 2 * p);
    }
  }

  lemma RowsTable(e: seq<Cell>, z: seq<Cell>, h: seq<Pair>)
    requires FromRows(e, z, |h|) && Columns(z, h) && DistinctKeys(h)
    requires forall x :: x in h ==> IsDatum(x.key) && IsDatum(x.value)
    ensures TableOk([e])
  {
    forall a | IsSlot(e, a)
      ensures PairOk(e, a) && 0 <= a / 2 < |h| && e[a + 2] == h[a / 2].key && h[a / 2].key != Zero
    {
      var p := a / 2;
      assert Row(e, z, |h|, p) && h[p] in h;
    }
    assert ExtentOk(e);
    forall i, a, j, b, k | At([e], i, a, k) && At([e], j, b, k) && k != Zero
      ensures i == j && a == b
    {
      var p, q := a / 2, b / 2;
      assert a == 2 * p && b == 2 * q && h[p].key == h[q].key;
    }
  }

  lemma MapsHeld(t: seq<seq<Cell>>, k: Cell, v: Cell)
    requires TableOk(t)
    ensures Pair(k, v) in Held(t, 0) <==> Maps(t, k, v) && v != Null
  {
    HeldInChain(t, 0, Pair(k, v));
    if Maps(t, k, v) && v != Null {
      var i, a :| At(t, i, a, k) && t[i][a + 1] == v;
      assert At(t, i, a, Pair(k, v).key);
    }
  }

  lemma HeldData(t: seq<seq<Cell>>, x: Pair)
    requires TableOk(t) && x in Held(t, 0)
    ensures IsDatum(x.key) && IsDatum(x.value) && x.value != Null
  {
    HeldInChain(t, 0, x);
  }

  /** A table made into an array and that into a table again: what it mapped to
      something not null it still maps, in the same order, and nothing else. */
  lemma BackAgain(t: seq<seq<Cell>>, z: seq<Cell>, e: seq<Cell>)
    requires TableOk(t) && Columns(z, Held(t, 0)) && FromRows(e, z, |Held(t, 0)|)
    ensures TableOk([e]) && Held([e], 0) == Held(t, 0)
    ensures forall k, v :: Maps([e], k, v) <==> Maps(t, k, v) && v != Null
  {
    hide *;
    var h := Held(t, 0);
    HeldDistinct(t, 0);
    forall x | x in h
      ensures IsDatum(x.key) && IsDatum(x.value) && x.value != Null
    {
      HeldData(t, x);
    }
    RowsTable(e, z, h);
    RowsHeld(e, z, h, 0);
    HeldFrom([e], 0);
    assert h[0..] == h;
    forall k, v
      ensures Maps([e], k, v) <==> Maps(t, k, v) && v != Null
    {
      MapsHeld(t, k, v);
      MapsHeld([e], k, v);
      if Maps([e], k, v) {
        RowsNotNull(e, z, h, k, v);
      }
    }
  }

  /** The array holds the table: each key with a value that is not null is in
      the first column, with its value beside it in the second, and nothing
      else is there. */
  lemma ColumnsMap(t: seq<seq<Cell>>, z: seq<Cell>, n: int, k: Cell, v: Cell)
    requires TableOk(t) && Columns(z, Held(t, 0)) && |z| == 5 + 2 * n
    ensures Maps(t, k, v) && v != Null <==> exists p :: 5 <= p < 5 + n && z[p] == k && z[p + n] == v
  {
    hide Maps, Held, TableOk;
    var h := Held(t, 0);
    MapsHeld(t, k, v);
    if Pair(k, v) in h {
      var p :| 0 <= p < |h| && h[p] == Pair(k, v);
      assert z[5 + p] == k && z[5 + n + p] == v;
    }
    if p :| 5 <= p < 5 + n && z[p] == k && z[p + n] == v {
      assert z[5 + (p - 5)] == h[p - 5].key && z[5 + n + (p - 5)] == h[p - 5].value;
      assert h[p - 5] == Pair(k, v);
    }
  }

  lemma RowsNotNull(e: seq<Cell>, z: seq<Cell>, h: seq<Pair>, k: Cell, v: Cell)
    requires FromRows(e, z, |h|) && Columns(z, h) && Maps([e], k, v) && forall x :: x in h ==> x.value != Null
    ensures v != Null
  {
    var i, a :| At([e], i, a, k) && [e][i][a + 1] == v;
    assert Row(e, z, |h|, a / 2) && h[a / 2] in h;
  }
}
