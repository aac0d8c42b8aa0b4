/** Tables: chains of extents of pairs, and their conversion to arrays and back. */
module Tables {

  /** A cell: unused, the null string, the end of a chain, the size of the next
      extent, the next extent, or any other value; in an array's head also the
      prototype "n,m", the number of dimensions, and a dimension. */
  datatype Cell = Zero | Null | One | Size(n: int) | Next(i: int) | Item(id: int)
    | Prototype(n: int, m: int) | Dimensions(n: int) | Dimension(low: int, extent: int)

  /** What can be a key or a value. */
  predicate IsDatum(c: Cell) {
    c.Null? || c.Item?
  }

  /** Where the pairs of an extent end: its last two cells are the size of the
      next extent and the link to it. */
  function Last(e: seq<Cell>): int {
    |e| - 1
  }

  /** The pair behind cell a: its value and its key. */
  predicate PairOk(e: seq<Cell>, a: int) {
    0 <= a && a + 2 < |e| && IsDatum(e[a + 1]) && (IsDatum(e[a + 2]) || (e[a + 2] == Zero && e[a + 1] == Null))
  }

  /** Cell 0 is the title; the others are pairs, and the last two. */
  ghost predicate ExtentOk(e: seq<Cell>) {
    && |e| >= 5 && |e| % 2 == 1
    && e[Last(e) - 1].Size? && e[Last(e) - 1].n >= 4 && e[Last(e) - 1].n % 2 == 0
    && forall a :: IsSlot(e, a) ==> PairOk(e, a)
  }

  predicate IsSlot(e: seq<Cell>, a: int) {
    0 <= a <= |e| - 5 && a % 2 == 0
  }

  /** A chain: each extent is linked to the next, the last one ends it. */
  ghost predicate Chain(t: seq<seq<Cell>>) {
    && t != []
    && forall i :: 0 <= i < |t| ==> ExtentOk(t[i]) && t[i][Last(t[i])] == if i + 1 < |t| then Next(i + 1) else One
  }

  ghost predicate At(t: seq<seq<Cell>>, i: int, a: int, k: Cell) {
    0 <= i < |t| && IsSlot(t[i], a) && PairOk(t[i], a) && t[i][a + 2] == k
  }

  /** No key is in two places. */
  ghost predicate Unique(t: seq<seq<Cell>>) {
    forall i, a, j, b, k :: At(t, i, a, k) && At(t, j, b, k) && k != Zero ==> i == j && a == b
  }

  ghost predicate TableOk(t: seq<seq<Cell>>) {
    Chain(t) && Unique(t)
  }

  /** The table holds value v under key k. */
  ghost predicate Maps(t: seq<seq<Cell>>, k: Cell, v: Cell) {
    exists i, a :: At(t, i, a, k) && t[i][a + 1] == v
  }

  /** locapv: the first pair of the extent with that key.  The last cell, which
      is the link, is looked at too. */
  method Locapv(e: seq<Cell>, k: Cell) returns (found: bool, a: int)
    requires ExtentOk(e) && (e[Last(e)].One? || e[Last(e)].Next?) && (IsDatum(k) || k == Zero)
    ensures found ==> IsSlot(e, a) && e[a + 2] == k
    ensures !found ==> forall b :: IsSlot(e, b) ==> PairOk(e, b) && e[b + 2] != k
  {
    a := 0;
    while a < Last(e)
      invariant 0 <= a <= |e| - 1 && a % 2 == 0
      invariant forall b :: IsSlot(e, b) && b < a ==> PairOk(e, b) && e[b + 2] != k
    {
      assert IsSlot(e, a) ==> PairOk(e, a);
      assert a == |e| - 3 ==> e[a + 2] == e[Last(e)];
      if e[a + 2] == k {
        return true, a;
      }
      a := a + 2;
    }
    found := false;
  }

  /** A new extent of the given size, all its pairs unused. */
  ghost predicate Unused(e: seq<Cell>, size: int, next: int) {
    && size >= 4 && |e| == size + 1 && e[0] == Zero && e[size] == One && e[size - 1] == Size(next)
    && forall a :: IsSlot(e, a) ==> e[a + 1] == Null && e[a + 2] == Zero
  }

  /** ASSOCE: a new extent, and the size of the one to come after it. */
  method Assoce(size: int, next: int) returns (e: seq<Cell>)
    requires size >= 4 && size % 2 == 0
    ensures Unused(e, size, next)
  {
    var z := new Cell[size + 1](_ => Zero);
    z[size] := One;
    var xptr := size - 1;
    z[xptr] := Size(next);
    while true
      invariant 3 <= xptr <= size - 1 && xptr % 2 == 1 && z[0] == Zero && z[size] == One && z[size - 1] == Size(next)
      invariant forall q :: 1 <= q < size - 1 ==> z[q] == if q % 2 == 1 && q >= xptr then Null else Zero
      decreases xptr
    {
      xptr := xptr - 2;
      z[xptr] := Null;
      if xptr == 1 {
        break;
      }
    }
    e := z[..];
  }

  class Table {
    var ext: seq<seq<Cell>>
    var frozen: bool

    constructor (size: int, next: int)
      requires size >= 4 && size % 2 == 0 && next >= 4 && next % 2 == 0
      ensures TableOk(ext) && !frozen && forall k, v :: !(IsDatum(k) && Maps(ext, k, v))
    {
      var e := Assoce(size, next);
      ext := [e];
      frozen := false;
      new;
      FreshTable(e, size, next);
    }

    /** ITEM, for a table: the pair with the key.  If there is none one is made,
        in the last extent or a new one, unless the table is frozen. */
    method Refer(k: Cell) returns (found: bool, i: int, a: int)
      requires TableOk(ext) && IsDatum(k)
      modifies this`ext
      ensures TableOk(ext) && (found <==> !frozen || Has(old(ext), k))
      ensures found ==> At(ext, i, a, k) && Others(old(ext), ext, i, a)
      ensures found && !Has(old(ext), k) ==> ext[i][a + 1] == Null && (At(old(ext), i, a, Zero) || i == |old(ext)|)
      ensures found && Has(old(ext), k) ==> At(old(ext), i, a, k)
      ensures !found || Has(old(ext), k) ==> ext == old(ext)
    {
      hide ExtentOk, Has, Last, Others, TableOk, Unused;
      found, i, a := Find(k);
      if found {
        SameOthers(ext, i, a);
        HasAt(ext, i, a, k);
        return;
      }
      if frozen {
        return false, 0, 0;
      }
      LastExtent(ext, i);
      found, a := Locapv(ext[i], Zero);
      if found {
        FreeSlot(ext, i, a);
        Taken(ext, i, a, k);
        assert 0 <= a + 2 < |ext[i]|;
        ext := ext[i := ext[i][a + 2 := k]];
      } else {
        var wptr := ext[i][Last(ext[i]) - 1].n;
        var xptr := Assoce(wptr, wptr);
        Extended(ext, xptr, wptr, k);
        ext := ext[i := ext[i][Last(ext[i]) := Next(i + 1)]] + [xptr];
        i, a := i + 1, 0;
        Taken(ext, i, a, k);
        assert 0 <= a + 2 < |ext[i]|;
        ext := ext[i := ext[i][a + 2 := k]];
        OthersTrans(old(ext), old(ext)[i - 1 := old(ext)[i - 1][Last(old(ext)[i - 1]) := Next(i)]] + [xptr], ext, i, a);
      }
      found := true;
    }

    /** An assignment to t[k]: the pair is found or made, and the value put in it.
        The table is then the same map but for k. */
    method Assign(k: Cell, v: Cell) returns (found: bool)
      requires TableOk(ext) && IsDatum(k) && IsDatum(v)
      modifies this`ext
      ensures TableOk(ext) && (found <==> !frozen || Has(old(ext), k))
      ensures !found ==> ext == old(ext)
      ensures found ==> forall q, w :: IsDatum(q) ==> (Maps(ext, q, w) <==> if q == k then w == v else Maps(old(ext), q, w))
    {
      hide Has, IsDatum, Maps, Others, TableOk;
      ghost var t := ext;
      var i, a;
      found, i, a := Refer(k);
      if !found {
        return;
      }
      ghost var u := ext;
      Placed(t, u, i, a, k);
      ValueSet(u, i, a, k, v);
      assert 0 <= i < |ext| && 0 <= a + 1 < |ext[i]|;
      ext := ext[i := ext[i][a + 1 := v]];
      OthersTrans(t, u, ext, i, a);
      assert 0 <= i < |ext| && 0 <= a + 1 < |ext[i]| && ext[i][a + 1] == v;
      forall q, w | IsDatum(q)
        ensures Maps(ext, q, w) <==> if q == k then w == v else Maps(t, q, w)
      {
        Stored(t, ext, i, a, k, q, w);
      }
    }

    /** The walk along the chain. */
    method Find(k: Cell) returns (found: bool, i: int, a: int)
      requires TableOk(ext) && IsDatum(k)
      ensures found ==> At(ext, i, a, k)
      ensures !found ==> !Has(ext, k) && i == |ext| - 1
    {
      hide PairOk, Unique, IsSlot;
      i := 0;
      while true
        invariant 0 <= i < |ext| && NotIn(ext, i, k)
        decreases |ext| - i
      {
        assert ExtentOk(ext[i]);
        found, a := Locapv(ext[i], k);
        if found {
          SlotAt(ext, i, a, k);
          return;
        }
        NotHere(ext, i, k);
        assert |ext[i]| >= 5;
        var zptr := ext[i][Last(ext[i])];
        if zptr == One {
          return;
        }
        i := zptr.i;
      }
    }
  }

  ghost predicate Has(t: seq<seq<Cell>>, k: Cell) {
    exists i, a :: At(t, i, a, k)
  }

  ghost predicate NotIn(t: seq<seq<Cell>>, n: int, k: Cell) {
    forall i, a :: At(t, i, a, k) ==> i >= n
  }

  /** All pairs of t but that at (i, a) are the same in u, which has no others
      with a key. */
  ghost predicate Others(t: seq<seq<Cell>>, u: seq<seq<Cell>>, i: int, a: int) {
    && |u| >= |t|
    && (forall j, b, q :: At(t, j, b, q) && (j != i || b != a) ==> At(u, j, b, q) && u[j][b + 1] == t[j][b + 1])
    && (forall j, b, q :: At(u, j, b, q) && q != Zero && (j != i || b != a) ==> At(t, j, b, q))
  }

  /** A value is stored under key k: the table maps k to it, and every other key
      as before. */
  lemma Stored(t: seq<seq<Cell>>, u: seq<seq<Cell>>, i: int, a: int, k: Cell, q: Cell, w: Cell)
    requires TableOk(t) && TableOk(u) && Others(t, u, i, a) && At(u, i, a, k) && IsDatum(k) && IsDatum(q)
    requires forall j, b :: At(t, j, b, k) ==> j == i && b == a
    requires forall p :: At(t, i, a, p) ==> p == k || p == Zero
    ensures Maps(u, q, w) <==> if q == k then w == u[i][a + 1] else Maps(t, q, w)
  {
    hide Chain, IsSlot;
    if Maps(u, q, w) {
      var j, b :| At(u, j, b, q) && u[j][b + 1] == w;
    }
    if Maps(t, q, w) && q != k {
      var j, b :| At(t, j, b, q) && t[j][b + 1] == w;
    }
  }

  /** The key was nowhere else, and no other key was there. */
  lemma Placed(t: seq<seq<Cell>>, u: seq<seq<Cell>>, i: int, a: int, k: Cell)
    requires TableOk(t) && TableOk(u) && Others(t, u, i, a) && At(u, i, a, k) && IsDatum(k)
    requires At(t, i, a, k) || At(t, i, a, Zero) || i >= |t|
    ensures forall j, b :: At(t, j, b, k) ==> j == i && b == a
    ensures forall p :: At(t, i, a, p) ==> p == k || p == Zero
  {
    hide Chain, IsSlot;
  }

  lemma ValueSet(t: seq<seq<Cell>>, i: int, a: int, k: Cell, v: Cell)
    requires TableOk(t) && At(t, i, a, k) && IsDatum(k) && IsDatum(v)
    ensures 0 <= i < |t| && 0 <= a + 1 < |t[i]|
    ensures var u := t[i := t[i][a + 1 := v]]; TableOk(u) && At(u, i, a, k) && Others(t, u, i, a)
  {
    var e := t[i][a + 1 := v];
    var u := t[i := e];
    assert ExtentOk(t[i]);
    forall b | IsSlot(e, b)
      ensures PairOk(e, b)
    {
      assert IsSlot(t[i], b) && PairOk(t[i], b);
    }
    assert ExtentOk(e);
    forall j | 0 <= j < |u|
      ensures ExtentOk(u[j]) && u[j][Last(u[j])] == if j + 1 < |u| then Next(j + 1) else One
    {
      assert ExtentOk(t[j]);
    }
    forall j, b, q | At(u, j, b, q)
      ensures At(t, j, b, q)
    {
      assert ExtentOk(t[j]) && IsSlot(t[j], b);
    }
    assert Unique(u) by { hide PairOk, IsSlot; }
  }

  lemma SameOthers(t: seq<seq<Cell>>, i: int, a: int)
    ensures Others(t, t, i, a)
  {
  }

  lemma OthersTrans(t: seq<seq<Cell>>, u: seq<seq<Cell>>, v: seq<seq<Cell>>, i: int, a: int)
    requires Others(t, u, i, a) && Others(u, v, i, a)
    ensures Others(t, v, i, a)
  {
  }

  lemma HasAt(t: seq<seq<Cell>>, i: int, a: int, k: Cell)
    requires At(t, i, a, k)
    ensures Has(t, k)
  {
  }

  lemma SlotAt(t: seq<seq<Cell>>, i: int, a: int, k: Cell)
    requires Chain(t) && 0 <= i < |t| && IsSlot(t[i], a) && a + 2 < |t[i]| && t[i][a + 2] == k
    ensures At(t, i, a, k)
  {
    assert ExtentOk(t[i]);
  }

  lemma NotHere(t: seq<seq<Cell>>, i: int, k: Cell)
    requires NotIn(t, i, k) && 0 <= i < |t| && forall b :: IsSlot(t[i], b) ==> PairOk(t[i], b) && t[i][b + 2] != k
    ensures NotIn(t, i + 1, k) && (i == |t| - 1 ==> !Has(t, k))
  {
  }

  lemma LastExtent(t: seq<seq<Cell>>, i: int)
    requires TableOk(t) && i == |t| - 1
    ensures 0 <= i < |t| && ExtentOk(t[i]) && |t[i]| >= 5 && Last(t[i]) == |t[i]| - 1
    ensures t[i][Last(t[i])] == One && t[i][Last(t[i]) - 1].Size?
    ensures t[i][Last(t[i]) - 1].n >= 4 && t[i][Last(t[i]) - 1].n % 2 == 0
  {
  }

  lemma FreeSlot(t: seq<seq<Cell>>, i: int, a: int)
    requires TableOk(t) && 0 <= i < |t| && IsSlot(t[i], a) && a + 2 < |t[i]| && t[i][a + 2] == Zero
    ensures At(t, i, a, Zero)
  {
    SlotAt(t, i, a, Zero);
  }

  /** An unused pair gets a key that was in no pair. */
  lemma Taken(t: seq<seq<Cell>>, i: int, a: int, k: Cell)
    requires TableOk(t) && At(t, i, a, Zero) && !Has(t, k) && IsDatum(k)
    ensures 0 <= i < |t| && 0 <= a + 2 < |t[i]|
    ensures var u := t[i := t[i][a + 2 := k]];
            TableOk(u) && At(u, i, a, k) && Others(t, u, i, a) && u[i][a + 1] == Null
  {
    var e := t[i][a + 2 := k];
    var u := t[i := e];
    assert ExtentOk(t[i]);
    forall b | IsSlot(e, b)
      ensures PairOk(e, b)
    {
      assert IsSlot(t[i], b) && PairOk(t[i], b);
    }
    assert ExtentOk(e);
    forall j | 0 <= j < |u|
      ensures ExtentOk(u[j]) && u[j][Last(u[j])] == if j + 1 < |u| then Next(j + 1) else One
    {
      assert ExtentOk(t[j]);
    }
    forall j, b, q | At(t, j, b, q) && (j != i || b != a)
      ensures At(u, j, b, q) && u[j][b + 1] == t[j][b + 1]
    {
    }
    forall j, b, q | At(u, j, b, q) && (j != i || b != a)
      ensures At(t, j, b, q)
    {
      assert ExtentOk(t[j]) && IsSlot(t[j], b);
    }
    TakenUnique(t, u, i, a, k);
  }

  lemma TakenUnique(t: seq<seq<Cell>>, u: seq<seq<Cell>>, i: int, a: int, k: Cell)
    requires Unique(t) && !Has(t, k) && At(u, i, a, k)
    requires forall j, b, q :: At(u, j, b, q) && (j != i || b != a) ==> At(t, j, b, q)
    ensures Unique(u)
  {
    hide PairOk, IsSlot;
    forall j, b, j', b', q | At(u, j, b, q) && At(u, j', b', q) && q != Zero
      ensures j == j' && b == b'
    {
      if j == i && b == a {
        assert q == k;
      }
    }
  }

  /** A new extent is linked to the end of the chain. */
  lemma Extended(t: seq<seq<Cell>>, e: seq<Cell>, size: int, k: Cell)
    requires TableOk(t) && Unused(e, size, size) && size % 2 == 0 && !Has(t, k) && IsDatum(k)
    ensures var i := |t| - 1;
            && 0 <= i < |t| && |t[i]| >= 5
            && var u := t[i := t[i][Last(t[i]) := Next(i + 1)]] + [e];
               TableOk(u) && At(u, i + 1, 0, Zero) && !Has(u, k) && Others(t, u, i + 1, 0)
  {
    var i := |t| - 1;
    assert ExtentOk(t[i]);
    var f := t[i][Last(t[i]) := Next(i + 1)];
    var u := t[i := f] + [e];
    forall b | IsSlot(f, b)
      ensures PairOk(f, b)
    {
      assert IsSlot(t[i], b) && PairOk(t[i], b);
    }
    forall b | IsSlot(e, b)
      ensures PairOk(e, b) && e[b + 2] == Zero
    {
    }
    assert ExtentOk(f) && ExtentOk(e);
    forall j | 0 <= j < |u|
      ensures ExtentOk(u[j]) && u[j][Last(u[j])] == if j + 1 < |u| then Next(j + 1) else One
    {
      assert j < |t| ==> ExtentOk(t[j]);
    }
    forall j, b, q | At(t, j, b, q)
      ensures At(u, j, b, q) && u[j][b + 1] == t[j][b + 1]
    {
    }
    forall j, b, q | At(u, j, b, q) && q != Zero
      ensures At(t, j, b, q)
    {
      assert j < |t| ==> ExtentOk(t[j]);
    }
    ExtendedUnique(t, u);
    assert IsSlot(e, 0);
  }

  lemma ExtendedUnique(t: seq<seq<Cell>>, u: seq<seq<Cell>>)
    requires Unique(t) && forall j, b, q :: At(u, j, b, q) && q != Zero ==> At(t, j, b, q)
    ensures Unique(u)
  {
    hide PairOk, IsSlot;
  }

  lemma FreshTable(e: seq<Cell>, size: int, next: int)
    requires size >= 4 && size % 2 == 0 && next >= 4 && next % 2 == 0 && Unused(e, size, next)
    ensures TableOk([e]) && forall k, v :: !(IsDatum(k) && Maps([e], k, v))
  {
    forall b | IsSlot(e, b)
      ensures PairOk(e, b)
    {
    }
    assert ExtentOk(e);
  }
}
