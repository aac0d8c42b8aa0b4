/** Storage as the collector sees it: descriptors, titled blocks, and pointers
    into blocks.  Addresses count descriptors; address 0 is no address. */
module Heap {

  /** A descriptor: address, value or size, and the flags of its F field.  The
      remaining flags are carried along.  In a cell that holds characters they
      are chars. */
  datatype Descr = Descr(a: int, v: int, ttl: bool, sttl: bool, mark: bool, ptr: bool, rest: int, chars: string)

  const ZEROCL := Descr(0, 0, false, false, false, false, 0, "")

  /** The null string as a value. */
  const NULVCL := Descr(0, 1, false, false, false, false, 0, "")

  /** DCMP: the same as descriptors. */
  predicate Dcmp(d: Descr, e: Descr) {
    d.(chars := e.chars) == e
  }

  /** Fields of a string block. */
  const ATTRIB := 2
  const LNKFLD := 3

  /** Characters per descriptor. */
  const CPD := 16

  /** How much room a block takes, given its title. */
  function BkSize(d: Descr): (n: int)
    ensures d.v >= 1 ==> n >= 2
    ensures d.sttl && d.v >= 1 ==> n >= 5
  {
    if d.sttl then 4 + ((d.v - 1) / CPD + 1) else d.v + 1
  }

  /** How many descriptors after the title the collector follows and pointers
      may refer to: of a string only its value and attribute. */
  function Traced(d: Descr): int {
    if d.sttl then 2 else d.v
  }

  /** The title of the block that address a lies in: the nearest one at or
      below it. */
  function TopOf(m: seq<Descr>, a: int): (t: int)
    requires 0 <= a < |m|
    ensures -1 <= t <= a
    ensures t >= 0 ==> m[t].ttl
    decreases a
  {
    if m[a].ttl then a else if a == 0 then -1 else TopOf(m, a - 1)
  }

  /** A block starts at t. */
  ghost predicate TitleAt(m: seq<Descr>, t: int) {
    && 0 < t < |m| && m[t].ttl && m[t].v >= 1 && t + BkSize(m[t]) <= |m|
    && forall i :: t < i <= t + Traced(m[t]) ==> !m[i].ttl
  }

  /** The blocks of storage: the dynamic region from lo to hi is made up of the
      blocks in dyn, in this order; the blocks in perm are permanent. */
  datatype World = World(dyn: seq<int>, perm: set<int>, lo: int, hi: int)

  function After(W: World, i: int): int
    requires 0 <= i < |W.dyn|
  {
    if i + 1 < |W.dyn| then W.dyn[i + 1] else W.hi
  }

  /** The i-th dynamic block is in order and the next one follows at once. */
  ghost predicate BlockAt(m: seq<Descr>, W: World, i: int) {
    && 0 <= i < |W.dyn| && TitleAt(m, W.dyn[i])
    && W.dyn[i] + BkSize(m[W.dyn[i]]) == After(W, i)
  }

  /** The dynamic region is tiled exactly by titled blocks. */
  ghost predicate Tiled(m: seq<Descr>, W: World) {
    && 0 < W.lo <= W.hi <= |m|
    && (if W.dyn == [] then W.lo == W.hi else W.dyn[0] == W.lo)
    && forall i :: 0 <= i < |W.dyn| ==> BlockAt(m, W, i)
  }

  /** Every title holds its own address. */
  ghost predicate Homed(m: seq<Descr>, W: World) {
    forall t :: t in W.dyn && 0 <= t < |m| ==> m[t].a == t
  }

  /** Permanent blocks lie below the dynamic region and carry a mark. */
  ghost predicate Permanent(m: seq<Descr>, W: World) {
    forall t :: t in W.perm ==>
      TitleAt(m, t) && t + Traced(m[t]) < W.lo && m[t].mark && !m[t].sttl && m[t].a == t
  }

  ghost predicate Owner(W: World, t: int) {
    t in W.dyn || t in W.perm
  }

  /** A pointer refers to a block or to one of its descriptors. */
  ghost predicate PtrOk(m: seq<Descr>, W: World, d: Descr) {
    d.ptr && d.a != 0 ==>
      && 0 < d.a < |m|
      && var t := TopOf(m, d.a);
         0 < t && Owner(W, t) && d.a <= t + Traced(m[t])
  }

  /** Every descriptor that the collector follows from block t is in order. */
  ghost predicate BlockOk(m: seq<Descr>, W: World, t: int) {
    0 < t < |m| && t + Traced(m[t]) < |m|
    && forall j :: t < j <= t + Traced(m[t]) ==> PtrOk(m, W, m[j])
  }

  // ------------------------------------------------------------------- lemmas

  lemma {:induction false} TopIs(m: seq<Descr>, t: int, a: int)
    requires 0 <= t <= a < |m| && m[t].ttl && forall i :: t < i <= a ==> !m[i].ttl
    ensures TopOf(m, a) == t
    decreases a
  {
    if t < a {
      TopIs(m, t, a - 1);
    }
  }

  lemma TopInBlock(m: seq<Descr>, t: int, a: int)
    requires TitleAt(m, t) && t <= a <= t + Traced(m[t])
    ensures a < |m| && TopOf(m, a) == t
  {
    assert Traced(m[t]) < BkSize(m[t]);
    TopIs(m, t, a);
  }

  lemma {:induction false} TopSame(m: seq<Descr>, m': seq<Descr>, a: int)
    requires |m'| == |m| && 0 <= a < |m|
    requires forall i :: 0 <= i < |m| ==> m'[i].ttl == m[i].ttl
    ensures TopOf(m', a) == TopOf(m, a)
    decreases a
  {
    if !m[a].ttl && a > 0 {
      TopSame(m, m', a - 1);
    }
  }

  /** Later blocks lie entirely behind earlier ones. */
  lemma {:induction false} Ascending(m: seq<Descr>, W: World, i: int, j: int)
    requires Tiled(m, W) && 0 <= i < j < |W.dyn|
    ensures BlockAt(m, W, i) && BlockAt(m, W, j)
    ensures W.dyn[i] + BkSize(m[W.dyn[i]]) <= W.dyn[j]
    decreases j - i
  {
    assert BlockAt(m, W, i) && BlockAt(m, W, j) && BlockAt(m, W, j - 1);
    if i < j - 1 {
      Ascending(m, W, i, j - 1);
    }
  }

  lemma InRegion(m: seq<Descr>, W: World, i: int)
    requires Tiled(m, W) && 0 <= i < |W.dyn|
    ensures BlockAt(m, W, i)
    ensures W.lo <= W.dyn[i] && W.dyn[i] + BkSize(m[W.dyn[i]]) <= W.hi
  {
    assert BlockAt(m, W, i);
    if i > 0 {
      Ascending(m, W, 0, i);
    }
    var last := |W.dyn| - 1;
    assert BlockAt(m, W, last);
    if i < last {
      Ascending(m, W, i, last);
    }
  }

  lemma TitlesDiffer(m: seq<Descr>, W: World, i: int, j: int)
    requires Tiled(m, W) && 0 <= i < |W.dyn| && 0 <= j < |W.dyn| && W.dyn[i] == W.dyn[j]
    ensures i == j
  {
    if i < j {
      Ascending(m, W, i, j);
    } else if j < i {
      Ascending(m, W, j, i);
    }
  }

  /** No block starts inside another. */
  lemma Inside(m: seq<Descr>, W: World, i: int, u: int)
    requires Tiled(m, W) && 0 <= i < |W.dyn| && u in W.dyn && W.dyn[i] < u
    ensures BlockAt(m, W, i) && W.dyn[i] + BkSize(m[W.dyn[i]]) <= u
  {
    var k :| 0 <= k < |W.dyn| && W.dyn[k] == u;
    if k < i {
      Ascending(m, W, k, i);
    } else if k > i {
      Ascending(m, W, i, k);
    }
  }

  lemma DynTitle(m: seq<Descr>, W: World, t: int)
    requires Tiled(m, W) && t in W.dyn
    ensures TitleAt(m, t) && W.lo <= t && t + BkSize(m[t]) <= W.hi
  {
    var i :| 0 <= i < |W.dyn| && W.dyn[i] == t;
    InRegion(m, W, i);
  }
}
