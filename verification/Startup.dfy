/** Storage as the interpreter starts: the permanent blocks, empty chains, and a
    dynamic region in which nothing has been allocated yet. */
module Startup {
  import opened Heap
  import opened Marking
  import opened Roots
  import opened Relinking
  import opened Relocation
  import opened Soundness
  import opened Growth
  import opened Interning
  import opened Lookup

  /** A title of a permanent block. */
  function PermTitle(t: int, size: int): Descr {
    Descr(t, size, true, false, true, false, 0, "")
  }

  /** The four permanent blocks: the table of blocks to mark from, which lists
      the second; the registers; the pseudo-block; and the hash bins. */
  function Cell(bins: nat, x: int): Descr {
    if x == 1 then PermTitle(1, 1)
    else if x == 2 then Pointer(3)
    else if x == 3 then PermTitle(3, 2)
    else if x == 4 || x == 5 then Pointer(0)
    else if x == 6 then PermTitle(6, 1)
    else if x == 8 then PermTitle(8, bins + 3)
    else ZEROCL
  }

  function Memory(bins: nat, size: nat): (m: seq<Descr>)
    ensures |m| == bins + 12 + size && forall x :: 0 <= x < |m| ==> m[x] == Cell(bins, x)
  {
    seq(bins + 12 + size, x requires 0 <= x => Cell(bins, x))
  }

  function TablesAt(bins: nat): Tables {
    Tables(1, 1, 9, bins, 6)
  }

  ghost function Begin(bins: nat): World {
    World([], {1, 3, 6, 8}, bins + 12, bins + 12)
  }

  function Empty(bins: nat): (c: seq<seq<int>>)
    ensures |c| == bins && forall k :: 0 <= k < bins ==> c[k] == []
  {
    seq(bins, _ => [])
  }

  lemma BasesThere(bins: nat, size: nat)
    ensures Bases(Memory(bins, size), TablesAt(bins)) == {3}
  {
    var m := Memory(bins, size);
    assert m[2].a == 3;
    ListedNone(m, 1, 1);
    assert Listed(m, 1, 0, 1) == {3} + Listed(m, 1, 1, 1);
  }

  lemma TopThere(bins: nat, size: nat, x: int)
    requires 0 <= x < bins + 12
    ensures var m := Memory(bins, size);
            TopOf(m, x) == if x == 0 then -1 else if x <= 2 then 1 else if x <= 5 then 3 else if x <= 7 then 6 else 8
    decreases x
  {
    if x > 0 {
      TopThere(bins, size, x - 1);
    }
  }

  lemma SlotsThere(bins: nat, size: nat, x: int)
    requires 0 <= x < bins + 12
    ensures SlotIn(Memory(bins, size), {3}, x) <==> x == 4 || x == 5
  {
    TopThere(bins, size, x);
  }

  lemma BlocksThere(bins: nat, size: nat)
    ensures var m, W := Memory(bins, size), Begin(bins);
            Tiled(m, W) && Permanent(m, W) && BlockOk(m, W, 3) && Scratch(m, W, {3}, 7)
  {
  }

  lemma PlacedThere(bins: nat, size: nat)
    requires bins > 0
    ensures Placed(Memory(bins, size), Begin(bins), TablesAt(bins), {3})
  {
    forall x | 0 <= x < bins + 12
      ensures SlotIn(Memory(bins, size), {3}, x) <==> x == 4 || x == 5
    {
      SlotsThere(bins, size, x);
    }
  }

  lemma ChainedThere(bins: nat, size: nat)
    ensures Chained(Memory(bins, size), Begin(bins), 9, Empty(bins))
  {
    var m, W := Memory(bins, size), Begin(bins);
    forall k | 0 <= k < bins
      ensures IsChain(m, W, 9 + k, Empty(bins)[k])
    {
      assert LinkAt(m, 9 + k, [], 0);
    }
  }

  /** The table of strings and its surroundings are in order from the start. */
  lemma BeginsInOrder(bins: nat, size: nat, h: Hash)
    requires bins > 0
    ensures TableOk(Memory(bins, size), Begin(bins), TablesAt(bins), h, Empty(bins), Registers(4, 5))
  {
    hide Tiled, Permanent, BlockOk, Scratch, Placed, Chained, Bases, SlotIn;
    BasesThere(bins, size);
    BlocksThere(bins, size);
    PlacedThere(bins, size);
    ChainedThere(bins, size);
    SlotsThere(bins, size, 4);
    SlotsThere(bins, size, 5);
  }

  /** The registers start as null pointers and the barrier at 0, so the first
      collection has to find something to throw away. */
  lemma FirstNulls(bins: nat, size: nat)
    ensures !NullsBelow(Memory(bins, size), Bases(Memory(bins, size), TablesAt(bins)), 0)
  {
    BasesThere(bins, size);
    var m := Memory(bins, size);
    assert SlotOf(m, 3, 4) && m[4].ptr && m[4].a == 0 && !NoNulls(m, 3);
  }
}
