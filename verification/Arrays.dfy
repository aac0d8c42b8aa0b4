/** Arrays of any number of dimensions: how they are laid out, and how ITEM
    finds an element. */
module Arrays {

  /** A dimension: its lower bound and its extent. */
  datatype Dim = Dim(low: int, extent: int)

  predicate DimsOk(dims: seq<Dim>) {
    forall i :: 0 <= i < |dims| ==> dims[i].extent >= 0
  }

  /** How many elements there are. */
  function Size(dims: seq<Dim>): (n: int) {
    if dims == [] then 1 else dims[0].extent * Size(dims[1..])
  }

  predicate InRange(dims: seq<Dim>, subs: seq<int>) {
    |subs| == |dims| && forall i :: 0 <= i < |dims| ==> 0 <= subs[i] - dims[i].low < dims[i].extent
  }

  /** Which element the subscripts mean: the first one varies fastest. */
  function Offset(dims: seq<Dim>, subs: seq<int>): (o: int)
    requires |subs| == |dims|
  {
    if dims == [] then 0 else subs[0] - dims[0].low + dims[0].extent * Offset(dims[1..], subs[1..])
  }

  /** The subscripts that mean element o. */
  function Subscripts(dims: seq<Dim>, o: int): (subs: seq<int>)
    ensures |subs| == |dims|
  {
    if dims == [] then []
    else if dims[0].extent <= 0 then [dims[0].low] + Subscripts(dims[1..], 0)
    else [dims[0].low + o % dims[0].extent] + Subscripts(dims[1..], o / dims[0].extent)
  }

  lemma RangeRest(dims: seq<Dim>, subs: seq<int>)
    requires dims != [] && |subs| == |dims|
    ensures InRange(dims, subs) <==> 0 <= subs[0] - dims[0].low < dims[0].extent && InRange(dims[1..], subs[1..])
  {
    if InRange(dims[1..], subs[1..]) && 0 <= subs[0] - dims[0].low < dims[0].extent {
      forall i | 0 <= i < |dims|
        ensures 0 <= subs[i] - dims[i].low < dims[i].extent
      {
        if i > 0 {
          assert dims[1..][i - 1] == dims[i] && subs[1..][i - 1] == subs[i];
        }
      }
    }
  }

  lemma Below(d: int, e: int, o: int, s: int)
    requires 0 <= d < e && 0 <= o < s
    ensures 0 <= d + e * o < e * s
  {
    NotBelow(s - 1 - o, e);
    NotBelow(o, e);
    Spread(s - 1, o, e);
    Spread(s, 1, e);
  }

  lemma DivMod(d: int, e: int, o: int)
    requires 0 <= d < e
    ensures (d + e * o) % e == d && (d + e * o) / e == o
  {
    var x := d + e * o;
    Division(x, e);
    Unique(e, x / e, x % e, o, d);
  }

  lemma Division(x: int, e: int)
    requires e > 0
    ensures e * (x / e) + x % e == x && 0 <= x % e < e
  {
  }

  lemma Unique(e: int, q: int, r: int, o: int, d: int)
    requires 0 <= r < e && 0 <= d < e && e * q + r == e * o + d
    ensures q == o && r == d
  {
    if q > o {
      Times(q - o, e);
      Spread(q, o, e);
    } else if q < o {
      Times(o - q, e);
      Spread(o, q, e);
    }
  }

  lemma Times(k: int, n: int)
    requires k >= 1 && n >= 0
    ensures k * n >= n
  {
  }

  lemma NotBelow(k: int, n: int)
    requires n >= 0
    ensures k >= 0 ==> k * n >= 0
  {
  }

  lemma Spread(a: int, b: int, n: int)
    ensures (a - b) * n == n * a - n * b
  {
  }

  /** Subscripts in range mean an element, and no others mean the same one. */
  lemma {:induction false} OffsetInverse(dims: seq<Dim>, subs: seq<int>)
    requires InRange(dims, subs)
    ensures 0 <= Offset(dims, subs) < Size(dims)
    ensures Subscripts(dims, Offset(dims, subs)) == subs
    decreases |dims|
  {
    if dims != [] {
      RangeRest(dims, subs);
      OffsetInverse(dims[1..], subs[1..]);
      var d, e, o := subs[0] - dims[0].low, dims[0].extent, Offset(dims[1..], subs[1..]);
      Below(d, e, o, Size(dims[1..]));
      DivMod(d, e, o);
      assert subs == [subs[0]] + subs[1..];
    }
  }

  /** Every element has subscripts. */
  lemma {:induction false} SubscriptsInverse(dims: seq<Dim>, o: int)
    requires DimsOk(dims) && 0 <= o < Size(dims)
    ensures InRange(dims, Subscripts(dims, o)) && Offset(dims, Subscripts(dims, o)) == o
    decreases |dims|
  {
    if dims != [] {
      var e, s := dims[0].extent, Size(dims[1..]);
      assert e > 0 && s > 0 by {
        assert DimsOk(dims[1..]);
        SizePositive(dims[1..]);
        Positive(e, s, o);
      }
      Quotient(e, s, o);
      assert DimsOk(dims[1..]);
      SubscriptsInverse(dims[1..], o / e);
      var subs := Subscripts(dims, o);
      assert subs[1..] == Subscripts(dims[1..], o / e);
      RangeRest(dims, subs);
    }
  }

  /** The lowest subscripts mean the first element; the next one in dimension k
      is as many elements further on as the dimensions before it have. */
  lemma {:induction false} NextElement(dims: seq<Dim>, subs: seq<int>, k: int)
    requires 0 <= k < |dims| == |subs|
    ensures Offset(dims, subs[k := subs[k] + 1]) == Offset(dims, subs) + Size(dims[..k])
    decreases k
  {
    var next := subs[k := subs[k] + 1];
    if k > 0 {
      var d, s := dims[1..], subs[1..];
      NextElement(d, s, k - 1);
      assert next[1..] == s[k - 1 := s[k - 1] + 1];
      assert dims[..k][0] == dims[0] && dims[..k][1..] == d[..k - 1];
      Distribute(dims[0].extent, Offset(d, s), Size(d[..k - 1]));
    } else {
      assert next[1..] == subs[1..] && dims[..0] == [];
    }
  }

  lemma Distribute(e: int, o: int, s: int)
    ensures e * (o + s) == e * o + e * s
  {
  }

  lemma {:induction false} FirstElement(dims: seq<Dim>, subs: seq<int>)
    requires |dims| == |subs| && forall k :: 0 <= k < |dims| ==> subs[k] == dims[k].low
    ensures Offset(dims, subs) == 0
    decreases |dims|
  {
    if dims != [] {
      FirstElement(dims[1..], subs[1..]);
    }
  }

  lemma {:induction false} SizePositive(dims: seq<Dim>)
    requires DimsOk(dims)
    ensures Size(dims) >= 0
    decreases |dims|
  {
    if dims != [] {
      assert DimsOk(dims[1..]);
      SizePositive(dims[1..]);
    }
  }

  lemma Positive(e: int, s: int, o: int)
    requires e >= 0 && s >= 0 && 0 <= o < e * s
    ensures e > 0 && s > 0
  {
  }

  lemma Quotient(e: int, s: int, o: int)
    requires e > 0 && 0 <= o < e * s
    ensures 0 <= o / e < s && e * (o / e) + o % e == o && 0 <= o % e < e
  {
    var q := o / e;
    Division(o, e);
    Spread(q, s, e);
    NotBelow(q - s, e);
  }

  // ------------------------------------------------------------------ the block

  /** A cell of an array's block. */
  datatype Cell = Title | Proto(p: int) | Count(n: int) | Bounds(dim: Dim) | Elem(v: int)

  /** The block holds the dimensions, the last one first, and then the elements. */
  ghost predicate IsArray(b: seq<Cell>, dims: seq<Dim>) {
    && dims != [] && DimsOk(dims) && Size(dims) >= 0 && |b| == 3 + |dims| + Size(dims)
    && b[2] == Count(|dims|) && (forall i :: 3 <= i < 3 + |dims| ==> b[i] == Bounds(dims[|dims| - 1 - (i - 3)]))
    && forall i :: 3 + |dims| <= i < |b| ==> b[i].Elem?
  }

  /** The dimensions that a block holds. */
  function DimsOf(b: seq<Cell>): seq<Dim> {
    if |b| < 3 || !b[2].Count? || !(0 <= b[2].n <= |b| - 3) || exists i :: 3 <= i < 3 + b[2].n && !b[i].Bounds? then []
    else seq(b[2].n, k requires 0 <= k < b[2].n => b[2 + b[2].n - k].dim)
  }

  lemma DimsFound(b: seq<Cell>, dims: seq<Dim>)
    requires IsArray(b, dims)
    ensures DimsOf(b) == dims
  {
  }

  /** ARRAY: a block for the dimensions, with the prototype wptr, and every
      element with the value tptr. */
  method Array(dims: seq<Dim>, tptr: int, wptr: int) returns (zptr: array<Cell>)
    requires dims != [] && DimsOk(dims)
    ensures fresh(zptr) && IsArray(zptr[..], dims)
    ensures forall i :: 3 + |dims| <= i < zptr.Length ==> zptr[i] == Elem(tptr)
    ensures zptr[0] == Title && zptr[1] == Proto(wptr)
  {
    var stack, xcl, wcl: int := [], 1, 0;
    SizePositive(dims);
    while wcl < |dims|
      invariant 0 <= wcl <= |dims| && stack == dims[..wcl] && xcl * Size(dims[wcl..]) == Size(dims)
    {
      Factor(xcl, dims[wcl].extent, Size(dims[wcl + 1..]));
      assert dims[wcl..][1..] == dims[wcl + 1..];
      stack := stack + [dims[wcl]];
      xcl := xcl * dims[wcl].extent;
      wcl := wcl + 1;
    }
    assert dims[wcl..] == [] && xcl == Size(dims);
    var zcl := xcl + wcl + 2;
    zptr := new Cell[zcl + 1](_ => Title);
    zptr[2] := Count(wcl);
    var xptr, n := 1, wcl;
    while wcl > 0
      invariant 0 <= wcl <= n == |dims| && xptr == 1 + n - wcl && stack == dims[..wcl] && zptr[2] == Count(n)
      invariant zptr[0] == Title
      invariant forall i :: 3 <= i < 3 + n - wcl ==> zptr[i] == Bounds(dims[n - 1 - (i - 3)])
    {
      xptr := xptr + 1;
      var yptr := stack[|stack| - 1];
      stack := stack[..|stack| - 1];
      zptr[xptr + 1] := Bounds(yptr);
      wcl := wcl - 1;
    }
    xptr := xptr + 1;
    while xptr < zcl
      invariant 2 + n <= xptr <= zcl && zptr[0] == Title && zptr[2] == Count(n)
      invariant forall i :: 3 <= i < 3 + n ==> zptr[i] == Bounds(dims[n - 1 - (i - 3)])
      invariant forall i :: 3 + n <= i <= xptr ==> zptr[i] == Elem(tptr)
    {
      zptr[xptr + 1] := Elem(tptr);
      xptr := xptr + 1;
    }
    zptr[1] := Proto(wptr);
  }

  lemma Factor(x: int, e: int, s: int)
    ensures x * (e * s) == (x * e) * s
  {
  }

  // -------------------------------------------------------------------- ITEM

  datatype Found = Name(a: int) | Failure | TooMany

  /** Subscripts that are not given are 0. */
  function Padded(subs: seq<int>, n: int): (s: seq<int>)
    requires |subs| <= n
    ensures |s| == n && forall k :: 0 <= k < n ==> s[k] == if k < |subs| then subs[k] else 0
  {
    subs + seq(n - |subs|, _ => 0)
  }

  /** ITEM, for an array: the place of an element, whose value is the cell
      behind it. */
  method Item(b: seq<Cell>, subs: seq<int>) returns (r: Found)
    requires IsArray(b, DimsOf(b))
    ensures r.TooMany? <==> |subs| > |DimsOf(b)|
    ensures r.Failure? <==> |subs| <= |DimsOf(b)| && !InRange(DimsOf(b), Padded(subs, |DimsOf(b)|))
    ensures r.Name? ==> |subs| <= |DimsOf(b)| && r.a == 2 + |DimsOf(b)| + Offset(DimsOf(b), Padded(subs, |DimsOf(b)|))
  {
    hide Offset, InRange, Size, DimsOk, DimsOf;
    ghost var dims := DimsOf(b);
    var stack, wcl, zcl := subs, |subs|, b[2].n;
    if wcl > zcl {
      return TooMany;
    }
    while wcl != zcl
      invariant |subs| <= wcl <= zcl && stack == subs + seq(wcl - |subs|, _ => 0)
      decreases zcl - wcl
    {
      stack := stack + [0];
      wcl := wcl + 1;
    }
    r := Walk(b, stack, zcl, dims);
  }

  /** The subscripts are taken last first; the sum is built up by Horner's rule. */
  method Walk(b: seq<Cell>, s: seq<int>, n: int, ghost dims: seq<Dim>) returns (r: Found)
    requires IsArray(b, dims) && n == |dims| == |s|
    ensures !r.TooMany? && (r.Failure? <==> !InRange(dims, s))
    ensures r.Name? ==> r.a == 2 + |dims| + Offset(dims, s)
  {
    hide DimsOk, InRange, Offset, Size;
    var stack, zcl, yptr, ycl, zptr := s, n, n + 2, 2, 0;
    NoneLeft(dims, s);
    assert n > 0;
    while true
      invariant 0 < zcl <= n && ycl == 2 + n - zcl && stack == s[..zcl] && InRange(dims[zcl..], s[zcl..])
      invariant zptr == if zcl == n then 0 else dims[zcl - 1].extent * Offset(dims[zcl..], s[zcl..])
      decreases zcl
    {
      BoundsAt(b, dims, zcl - 1);
      OneMore(dims, s, zcl - 1);
      var wptr := b[ycl + 1].dim;
      var xptr := stack[|stack| - 1] - wptr.low;
      stack := stack[..|stack| - 1];
      if xptr < 0 || xptr >= wptr.extent {
        NotInRange(dims, s, zcl - 1);
        return Failure;
      }
      xptr := zptr + xptr;
      zcl := zcl - 1;
      if zcl == 0 {
        assert dims[0..] == dims && s[0..] == s;
        return Name(yptr + xptr);
      }
      BoundsAt(b, dims, zcl - 1);
      ycl := ycl + 1;
      zptr := xptr * b[ycl + 1].dim.extent;
    }
  }

  lemma NoneLeft(dims: seq<Dim>, s: seq<int>)
    requires |dims| == |s|
    ensures InRange(dims[|dims|..], s[|s|..])
  {
  }

  lemma BoundsAt(b: seq<Cell>, dims: seq<Dim>, k: int)
    requires IsArray(b, dims) && 0 <= k < |dims|
    ensures 0 <= 2 + |dims| - k < |b| && b[2 + |dims| - k] == Bounds(dims[k])
  {
  }

  lemma OneMore(dims: seq<Dim>, s: seq<int>, k: int)
    requires 0 <= k < |dims| == |s|
    ensures InRange(dims[k..], s[k..]) <==> 0 <= s[k] - dims[k].low < dims[k].extent && InRange(dims[k + 1..], s[k + 1..])
    ensures Offset(dims[k..], s[k..]) == s[k] - dims[k].low + dims[k].extent * Offset(dims[k + 1..], s[k + 1..])
    ensures k == |dims| - 1 ==> Offset(dims[k..], s[k..]) == s[k] - dims[k].low
  {
    assert dims[k..][1..] == dims[k + 1..] && s[k..][1..] == s[k + 1..];
    RangeRest(dims[k..], s[k..]);
  }

  lemma NotInRange(dims: seq<Dim>, s: seq<int>, k: int)
    requires 0 <= k < |dims| == |s| && !(0 <= s[k] - dims[k].low < dims[k].extent)
    ensures !InRange(dims, s)
  {
  }

  /** ITEM is a bijection between the subscripts in range and the elements. */
  lemma Addressing(dims: seq<Dim>, b: seq<Cell>, a: int)
    requires IsArray(b, dims) && 2 + |dims| <= a < |b| - 1
    ensures var subs := Subscripts(dims, a - 2 - |dims|);
            && InRange(dims, subs) && a == 2 + |dims| + Offset(dims, subs) && b[a + 1].Elem?
            && forall s :: InRange(dims, s) && a == 2 + |dims| + Offset(dims, s) ==> s == subs
  {
    SubscriptsInverse(dims, a - 2 - |dims|);
    forall s | InRange(dims, s) && a == 2 + |dims| + Offset(dims, s)
      ensures s == Subscripts(dims, a - 2 - |dims|)
    {
      OffsetInverse(dims, s);
    }
  }
}
