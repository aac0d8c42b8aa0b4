/** Two patterns whose ARBNO body matches null: FULLSCAN of the first never stops,
    although it has no match; that of the second does. */
module PatternLoop {
  import opened PatternAlgebra
  import opened PatternCode
  import opened PatternMachine
  import opened PatternCorrect
  import opened PatternTheorems
  import opened FullAlgebra

  const NullRounds := Cat(Arbno(Single(Len(0))), Single(Lit("a")))
  const Guarded := Cat(Single(Lit("b")), NullRounds)

  /** ARBNO(LEN(0)) tries null twice, and then hangs. */
  lemma LoopTried(s: string, c: int)
    requires 0 <= c <= |s|
    ensures FullEnds(Arbno(Single(Len(0))), s, c) == Tried([Out(c, []), Out(c, [])], true)
  {
    hide Joined;
    var b, none := Single(Len(0)), Out(c, []);
    assert FullEnds(b, s, c) == Tried([none], false);
    assert FullRound(b, s, c, none) == Tried([none], true);
    assert FullRounds(b, s, c, [none], false) == Joined(Tried([none], true), FullRounds(b, s, c, [], false));
    JoinedHere(none, FullRounds(b, s, c, [], false));
  }

  lemma JoinedHere(out: Out, t: Tried)
    ensures Joined(Tried([out], true), t) == Tried([out], true)
    ensures Joined(Tried([out], false), Tried([out], true)) == Tried([out, out], true)
  {
  }

  lemma NullRoundsTried()
    ensures FullEnds(NullRounds, "", 0) == Tried([], true)
  {
    hide Joined;
    var x, y, none := Arbno(Single(Len(0))), Single(Lit("a")), Out(0, []);
    LoopTried("", 0);
    assert FullEnds(y, "", 0) == Tried([], false);
    assert FullCat(y, "", 0, [], true) == Tried([], true);
    NothingJoined([]);
    assert FullCat(y, "", 0, [none], true) == Tried([], true);
    assert [none, none][1..] == [none];
    assert FullCat(y, "", 0, [none, none], true) == Tried([], true);
  }

  lemma NothingJoined(caps: seq<Cap>)
    ensures Joined(Under(caps, Tried([], false)), Tried([], true)) == Tried([], true)
  {
  }

  /** FULLSCAN never stops, although there is no match. */
  lemma NeverStops(trap: Entry, stk: seq<int>, names: seq<Cap>, n: nat)
    requires trap.link == Trap(SCFL)
    ensures Ends(NullRounds, "", 0) == [] && !Stops(NullRounds, "")
    ensures !Final(Run(Ctx(Block(NullRounds), "", true), Start(trap, stk, names), n))
  {
    hide Run, Block, FullEnds, Start, Ends;
    NullRoundsTried();
    FullscanStops(NullRounds, "", trap, stk, names);
    var ends := Ends(NullRounds, "", 0);
    if ends != [] {
      EndsBound(NullRounds, "", 0, ends[0]);
      assert false;
    }
  }

  /** FULLSCAN stops where the body that matches null is never reached. */
  lemma StopsAnyway()
    ensures !Productive(Guarded, "c") && Stops(Guarded, "c")
  {
    assert "c"[0..1][0] != "b"[0];
    assert FullEnds(Single(Lit("b")), "c", 0) == Tried([], false);
    var b := Single(Len(0));
    assert Out(0, []) in Ends(b, "c", 0);
    assert !Consumes(b, "c") && !Productive(Arbno(b), "c") && !Productive(NullRounds, "c");
  }
}
