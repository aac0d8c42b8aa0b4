/** The scanner itself, with its registers, history list, system stack, name
    list and cached scan tables.  Every move is proved to be the step of the
    transition system, and a whole scan is proved to give the answer of the
    pattern algebra. */
module Scanner {
  import opened PatternAlgebra
  import opened PatternCode
  import opened PatternBuild
  import opened PatternMachine
  import opened PatternProof
  import opened PatternCorrect
  import opened FullAlgebra
  import opened PatternTheorems
  import opened ScanTables

  /** Where the scanner is: about to enter the node at PATICL, about to pop the
      history list, or done. */
  datatype Mode = Entering | Failing | Matched | NotMatched | Broken

  /** How many records the name list grows by. */
  const NAMLSZ := 20

  class Scanner {
    var code: seq<Cell>          // the pattern block (PATBCL)
    var subj: string             // the subject (XSP); MAXLEN is its length
    var full: bool               // FULLSCAN
    var mode: Mode
    var patic: int               // PATICL
    var txsp: int                // the cursor, kept as the length of TXSP
    var lenf: bool               // LENFCL
    var pdl: seq<Entry>          // the history list
    var stack: seq<int>          // the system stack
    var nbs: array<Cap>          // the name list buffer (NBSPTR)
    var namicl: nat              // records in use
    var nmover: nat              // records there is room for
    const brktb: SynTab
    const spantb: SynTab
    var tblbcs: Option<string>   // the set that BRKTB stands for
    var tblscs: Option<string>   // the set that SPANTB stands for

    /** The cached tables are those of the sets they were made for. */
    ghost predicate TablesOk()
      reads this`tblbcs, this`tblscs, brktb, spantb, brktb.chrs, spantb.chrs
    {
      && brktb.chrs != spantb.chrs
      && brktb.chrs.Length == spantb.chrs.Length == 256
      && (tblbcs.Some? ==> forall c: char :: c as int < 256 ==>
            brktb.chrs[c as int] == if c in tblbcs.value then STOPSH else CONTIN)
      && (tblscs.Some? ==> forall c: char :: c as int < 256 ==>
            spantb.chrs[c as int] == if c in tblscs.value then CONTIN else STOPSH)
    }

    /** Subject and character sets are strings of bytes. */
    ghost predicate InputOk()
      reads this`subj, this`code
    {
      Bytes(subj) && forall i :: 0 <= i < |code| && code[i].Parm? && code[i].arg.Str? ==> Bytes(code[i].arg.s)
    }

    ghost predicate Valid()
      reads this, nbs, brktb, spantb, brktb.chrs, spantb.chrs
    {
      namicl < nmover == nbs.Length && TablesOk() && InputOk()
    }

    ghost function Names(): seq<Cap>
      reads this, nbs
      requires namicl <= nbs.Length
    {
      nbs[..namicl]
    }

    ghost function Context(): Ctx
      reads this
    {
      Ctx(code, subj, full)
    }

    /** The state of the transition system that the scanner is in. */
    ghost function Abs(): State
      reads this, nbs
      requires namicl <= nbs.Length
    {
      match mode
      case Entering => Scan(patic, txsp, lenf, pdl, stack, Names())
      case Failing => Back(lenf, pdl, stack, Names())
      case Matched => Accept(txsp, pdl, stack, Names())
      case NotMatched => Reject(stack, Names())
      case Broken => Stuck
    }

    constructor ()
      ensures Valid() && fresh(nbs) && fresh(brktb.chrs) && fresh(spantb.chrs) && Names() == []
    {
      code, subj, full, mode := [], "", false, NotMatched;
      patic, txsp, lenf, pdl, stack := 0, 0, false, [], [];
      nbs := new Cap[NAMLSZ](_ => Cap("", 0, 0));
      namicl, nmover := 0, NAMLSZ;
      brktb := new SynTab();
      spantb := new SynTab();
      tblbcs, tblscs := None, None;
    }

    /** SCOK: go on to the successor, or succeed when there is none. */
    method Scok(succ: int)
      modifies this`mode, this`patic, this`lenf
      requires namicl <= nbs.Length
      ensures Abs() == Ok(succ, txsp, pdl, stack, Names())
    {
      if succ == 0 {
        mode := Matched;
      } else {
        mode, patic, lenf := Entering, succ, true;
      }
    }

    /** SALT (flag kept) and SALF (flag cleared): fail into the history list. */
    method Fail(flag: bool)
      modifies this`mode, this`lenf
      requires namicl <= nbs.Length
      ensures Abs() == Back(flag, pdl, stack, Names())
    {
      mode, lenf := Failing, flag;
    }

    /** BREAK's table, made anew only when the set differs from the last one. */
    method Break(cs: string) returns (t: Try)
      requires Valid() && Bytes(cs) && cs != "" && 0 <= txsp <= |subj|
      modifies this`tblbcs, brktb.chrs
      ensures Valid()
      ensures t == LeafTry(BRKC, Str(cs), subj, full, txsp, 0)
    {
      if tblbcs != Some(cs) {
        brktb.Clertb(CONTIN);
        brktb.Plugtb(STOPSH, cs);
        tblbcs := Some(cs);
      }
      StreamBreaks(brktb.chrs[..], cs, subj, txsp);
      var e, ret := brktb.Stream(subj, txsp);
      match ret
      case Failed => t := Altfail;
      case EndOfSubject => t := Alternate;
      case Stopped => t := Hit(e);
    }

    /** SPAN's table, likewise. */
    method Span(cs: string) returns (t: Try)
      requires Valid() && Bytes(cs) && cs != "" && 0 <= txsp <= |subj|
      modifies this`tblscs, spantb.chrs
      ensures Valid()
      ensures t == LeafTry(SPNC, Str(cs), subj, full, txsp, 0)
    {
      if tblscs != Some(cs) {
        spantb.Clertb(STOPSH);
        spantb.Plugtb(CONTIN, cs);
        tblscs := Some(cs);
      }
      if |subj| <= txsp {
        return Alternate;
      }
      StreamSpans(spantb.chrs[..], cs, subj, txsp);
      var e, ret := spantb.Stream(subj, txsp);
      if ret == Failed || e == txsp {
        return Altfail;
      }
      return Hit(e);
    }

    /** LEN, POS, RPOS, RTAB and TAB. */
    method Positional(op: Op, x: int, r: int) returns (t: Try)
      requires 0 <= txsp <= |subj|
      ensures t == LeafTry(op, Int(x), subj, full, txsp, r)
    {
      var maxlen := |subj|;
      if x < 0 {
        return Altfail;
      }
      match op
      case LNTH =>
        if txsp + x > maxlen {
          return Alternate;
        }
        return Hit(txsp + x);
      case POSI =>
        if x > maxlen {
          return Alternate;
        }
        if x == txsp {
          return Hit(txsp);
        }
        return if x > txsp then Altfail else Alternate;
      case RPSI =>
        var tval := maxlen - x;
        if txsp < tval {
          return Altfail;
        }
        return if txsp == tval then Hit(txsp) else Alternate;
      case RTB =>
        var tval := maxlen - x;
        if txsp > tval {
          return Alternate;
        }
        if !full && maxlen - r < tval {
          return Alternate;
        }
        return Hit(tval);
      case TB =>
        if txsp > x || x > maxlen {
          return Alternate;
        }
        return Hit(x);
      case _ =>
        return Altfail;
    }

    /** The leaf nodes. */
    method Leaf(op: Op, arg: Arg, r: int) returns (t: Try)
      requires Valid() && (arg.Str? ==> Bytes(arg.s)) && 0 <= txsp <= |subj|
      modifies this`tblbcs, this`tblscs, brktb.chrs, spantb.chrs
      ensures Valid()
      ensures t == LeafTry(op, arg, subj, full, txsp, r)
    {
      hide TablesOk;
      if arg.Int? {
        t := Positional(op, arg.n, r);
      } else if op == CHR {
        if |subj| - txsp < |arg.s| {
          t := Alternate;
        } else {
          t := if subj[txsp..txsp + |arg.s|] == arg.s then Hit(txsp + |arg.s|) else Altfail;
        }
      } else if arg.s == "" {
        t := Altfail;
      } else if op == BRKC {
        t := Break(arg.s);
      } else if op == SPNC {
        t := Span(arg.s);
      } else if op == ANYC || op == NNYC {
        if txsp == |subj| {
          t := Alternate;
        } else {
          var found := Any(subj[txsp], arg.s);
          t := if found == (op == ANYC) then Hit(txsp + 1) else Altfail;
        }
      } else {
        t := Altfail;
      }
    }

    /** FARB: ARB takes one character more. */
    method Farb(succ: int, r: int)
      requires namicl <= nbs.Length && pdl != []
      modifies this`mode, this`patic, this`lenf, this`txsp, this`pdl
      ensures Abs() == FarbStep(old(Context()), succ, r, old(txsp), old(lenf), old(pdl), stack, Names())
    {
      var top := |pdl| - 1;
      if !full && lenf {
        pdl := pdl[..top];
        Fail(true);
        return;
      }
      var nval := if full then 0 else r;
      if txsp + nval >= |subj| {
        pdl := pdl[..top];
        Fail(true);
        return;
      }
      txsp := txsp + 1;
      pdl := pdl[top := pdl[top].(cur := txsp)];
      Scok(succ);
    }

    /** BAL's search for the next balanced stretch. */
    method Bal(succ: int, r: int)
      requires namicl <= nbs.Length && pdl != [] && 0 <= txsp && 0 <= r
      modifies this`mode, this`patic, this`lenf, this`txsp, this`pdl
      ensures Abs() == BalStep(old(Context()), succ, r, old(txsp), old(pdl), stack, Names())
    {
      var top := |pdl| - 1;
      var tval := txsp + if full then 0 else r;
      if tval >= |subj| {
        pdl := pdl[..top];
        Fail(false);
        return;
      }
      var e := Getbal(subj, txsp, |subj| - tval);
      if e.None? {
        pdl := pdl[..top];
        Fail(false);
        return;
      }
      txsp := e.value;
      pdl := pdl[top := pdl[top].(cur := txsp)];
      Scok(succ);
    }

    /** The name list gets NAMLSZ more records when it is full. */
    method Record(cap: Cap)
      requires Valid()
      modifies this`nbs, this`namicl, this`nmover, nbs
      ensures Valid() && Names() == old(Names()) + [cap]
      ensures nbs == old(nbs) || fresh(nbs)
    {
      nbs[namicl] := cap;
      namicl := namicl + 1;
      if namicl == nmover {
        nmover := nmover + NAMLSZ;
        var bigger := new Cap[nmover](_ => Cap("", 0, 0));
        var i := 0;
        while i < namicl
          invariant 0 <= i <= namicl && namicl <= bigger.Length && namicl == nbs.Length
          invariant bigger[..i] == nbs[..i] && nbs[..namicl] == old(Names()) + [cap]
          modifies bigger
        {
          bigger[i] := nbs[i];
          i := i + 1;
        }
        nbs := bigger;
      }
    }

    /** NME: a capture begins. */
    method Nme(succ: int)
      requires namicl <= nbs.Length
      modifies this`mode, this`patic, this`lenf, this`pdl, this`stack
      ensures Abs() == Ok(succ, txsp, old(pdl) + [Entry(Trap(FNME), txsp, 0, old(lenf))], old(stack) + [txsp], Names())
    {
      pdl := pdl + [Entry(Trap(FNME), txsp, 0, lenf)];
      stack := stack + [txsp];
      Scok(succ);
    }

    /** ENME: a capture ends. */
    method Enme(succ: int)
      requires Valid() && pdl != [] && 0 <= patic && 0 <= txsp <= |subj|
      modifies this`mode, this`patic, this`lenf, this`pdl, this`stack, this`nbs, this`namicl, this`nmover, nbs
      ensures Valid() && (nbs == old(nbs) || fresh(nbs))
      ensures Abs() == EnmeStep(Context(), old(patic), succ, txsp, old(lenf), old(pdl), old(stack), old(Names()))
    {
      hide TablesOk, InputOk;
      if stack == [] || patic + 4 >= |code| || !code[patic + 4].Parm? || !code[patic + 4].arg.Str? {
        mode := Broken;
        return;
      }
      var nval := stack[|stack| - 1];
      stack := stack[..|stack| - 1];
      Record(Cap(code[patic + 4].arg.s, nval, txsp));
      pdl := pdl + [Entry(Trap(DNME), txsp, nval, lenf)];
      Scok(succ);
    }

    /** The nodes of ARBNO. */
    method Arbno(op: Op, succ: int)
      requires namicl <= nbs.Length && op in {ARBN, ARBF, EARB, ONAR, ONRF}
      modifies this`mode, this`patic, this`lenf, this`pdl, this`stack
      requires pdl != []
      ensures Abs() == ArbnoStep(Context(), op, succ, txsp, old(lenf), old(pdl), old(stack), Names())
    {
      var top := |pdl| - 1;
      if op == ARBN {
        stack := stack + [txsp];
        Scok(succ);
      } else if op == ARBF || op == EARB {
        if stack == [] {
          mode := Broken;
          return;
        }
        var tmval := stack[|stack| - 1];
        stack := stack[..|stack| - 1];
        if op == ARBF {
          Fail(lenf);
        } else {
          pdl := pdl[top := Entry(To(tmval), txsp, 0, false)];
          Scok(succ);
        }
      } else if op == ONAR && full {
        Scok(succ);
      } else if top < 1 || !pdl[top - 1].link.To? {
        mode := Broken;
      } else {
        var tval := pdl[top - 1].link.a;
        if op == ONAR && tval != txsp {
          Scok(succ);
        } else {
          stack := stack + [tval];
          pdl := pdl[..top - 1];
          Fail(lenf);
        }
      }
    }

    /** SCIN3: enter the node at PATICL. */
    method Enter()
      requires Valid() && mode == Entering
      modifies this`mode, this`patic, this`lenf, this`txsp, this`pdl, this`stack, this`nbs, this`namicl, this`nmover
      modifies this`tblbcs, this`tblscs, nbs, brktb.chrs, spantb.chrs
      ensures Valid() && (nbs == old(nbs) || fresh(nbs))
      ensures Abs() == Step(Context(), old(Abs()))
    {
      hide TablesOk, InputOk, OpStep;
      if !NodeShape(code, patic) || !(0 <= txsp <= |subj|) {
        mode := Broken;
        return;
      }
      var zcl, xcl, ycl := code[patic + 1], code[patic + 2], code[patic + 3];
      pdl := pdl + [Entry(To(xcl.a), txsp, ycl.v, lenf)];
      if !full && txsp + ycl.a > |subj| {
        Fail(true);
        return;
      }
      Execute(zcl.op, xcl.v, ycl.v);
    }

    /** The branch on the node's function. */
    method Execute(op: Op, succ: int, r: int)
      requires Valid() && pdl != [] && 0 <= patic && 0 <= txsp <= |subj| && 0 <= r
      modifies this`mode, this`patic, this`lenf, this`txsp, this`pdl, this`stack, this`nbs, this`namicl, this`nmover
      modifies this`tblbcs, this`tblscs, nbs, brktb.chrs, spantb.chrs
      ensures Valid() && (nbs == old(nbs) || fresh(nbs))
      ensures Abs() == OpStep(Context(), old(patic), op, succ, r, old(txsp), old(lenf), old(pdl), old(stack), old(Names()))
    {
      hide TablesOk, InputOk, LeafStep, BalStep, FarbStep, ArbnoStep, EnmeStep;
      match op
      case SCOK => Scok(succ);
      case FARB => Farb(succ, r);
      case BAL => Bal(succ, r);
      case BALF =>
        if !full && lenf {
          pdl := pdl[..|pdl| - 1];
          Fail(false);
        } else {
          Bal(succ, r);
        }
      case NME => Nme(succ);
      case ENME => Enme(succ);
      case ARBN => Arbno(op, succ);
      case ARBF => Arbno(op, succ);
      case EARB => Arbno(op, succ);
      case ONAR => Arbno(op, succ);
      case ONRF => Arbno(op, succ);
      case _ => LeafNode(op, succ, r);
    }

    method LeafNode(op: Op, succ: int, r: int)
      requires Valid() && pdl != [] && 0 <= patic && 0 <= txsp <= |subj| && 0 <= r
      modifies this`mode, this`patic, this`lenf, this`txsp, this`tblbcs, this`tblscs, brktb.chrs, spantb.chrs
      ensures Valid()
      ensures Abs() == LeafStep(Context(), old(patic), op, succ, r, old(txsp), pdl, stack, Names())
    {
      hide TablesOk, LeafTry;
      if patic + 4 >= |code| || !code[patic + 4].Parm? {
        mode := Broken;
        return;
      }
      var t := Leaf(op, code[patic + 4].arg, r);
      match t
      case Hit(e) =>
        txsp := e;
        Scok(succ);
      case Alternate => Fail(true);
      case Altfail => Fail(false);
    }

    /** SALT2: pop the history list. */
    method Pop()
      requires Valid() && mode == Failing
      modifies this`mode, this`patic, this`lenf, this`txsp, this`pdl, this`stack, this`namicl
      ensures Valid()
      ensures Abs() == Step(Context(), old(Abs()))
    {
      hide TablesOk, InputOk;
      if pdl == [] {
        mode := Broken;
        return;
      }
      var e := pdl[|pdl| - 1];
      pdl := pdl[..|pdl| - 1];
      lenf := lenf && e.lenf;
      match e.link
      case To(a) =>
        if a != 0 {
          mode, patic, txsp := Entering, a, e.cur;
        }
      case Trap(SCFL) => mode := NotMatched;
      case Trap(FNME) => Fnme();
      case Trap(DNME) => Dnme(e.v);
    }

    /** FNME: a capture is given up before it ended. */
    method Fnme()
      requires namicl <= nbs.Length && mode == Failing
      modifies this`mode, this`stack
      ensures Abs() == if old(stack) == [] then Stuck else Back(lenf, pdl, old(stack)[..|old(stack)| - 1], Names())
    {
      if stack == [] {
        mode := Broken;
      } else {
        stack := stack[..|stack| - 1];
      }
    }

    /** DNME: a finished capture is taken back. */
    method Dnme(start: int)
      requires namicl <= nbs.Length && mode == Failing
      modifies this`mode, this`stack, this`namicl
      ensures namicl <= old(namicl)
      ensures Abs() == if old(Names()) == [] then Stuck
                       else Back(lenf, pdl, old(stack) + [start], old(Names())[..|old(Names())| - 1])
    {
      if namicl == 0 {
        mode := Broken;
      } else {
        namicl := namicl - 1;
        stack := stack + [start];
      }
    }

    /** SCIN1: enter nodes and pop history entries until the scan is over. */
    method Scin(ghost G: Ctx, ghost start: State, ghost n: nat)
      requires Valid() && G == Context() && start == Abs() && Final(Run(G, start, n))
      modifies this`mode, this`patic, this`lenf, this`txsp, this`pdl, this`stack, this`nbs, this`namicl, this`nmover
      modifies this`tblbcs, this`tblscs, nbs, brktb.chrs, spantb.chrs
      ensures Valid() && (nbs == old(nbs) || fresh(nbs))
      ensures Abs() == Run(G, start, n)
    {
      hide Step, TablesOk, InputOk, Final;
      ghost var i: nat := 0;
      RunZero(G, start);
      while mode == Entering || mode == Failing
        invariant Valid() && (nbs == old(nbs) || fresh(nbs)) && G == Context()
        invariant i <= n && Abs() == Run(G, start, i)
        decreases n - i
      {
        NotYetFinal(G, start, i, n, Abs());
        RunLast(G, start, i);
        if mode == Entering {
          Enter();
        } else {
          Pop();
        }
        i := i + 1;
      }
      StaysFinal(G, start, i, n, Abs());
    }

    /** SCNR with &ANCHOR set: scan the subject from its start for a pattern
        block.  nhedcl is the height of the name list to start from. */
    method Scnr(block: seq<Cell>, s: string, fullscan: bool, nhedcl: nat, ghost p: Pat) returns (ok: bool)
      requires namicl < nmover == nbs.Length && TablesOk() && nhedcl <= namicl
      requires block == Block(p) && WellFormed(p) && (fullscan ==> Stops(p, s))
      requires Bytes(s) && forall i :: 0 <= i < |block| && block[i].Parm? && block[i].arg.Str? ==> Bytes(block[i].arg.s)
      modifies this, nbs, brktb.chrs, spantb.chrs
      ensures Valid() && stack == old(stack)
      ensures ok <==> Ends(p, s, 0) != []
      ensures ok ==> txsp == Ends(p, s, 0)[0].end && Names() == old(nbs[..nhedcl]) + Ends(p, s, 0)[0].caps
      ensures !ok && (fullscan || MinLen(p) <= |s|) ==> Names() == old(nbs[..nhedcl])
      ensures !ok && !fullscan && MinLen(p) > |s| ==> Names() == old(Names())
    {
      hide Ends, Block, WellFormed, Stops, TablesOk, MinLen;
      code, subj, full := block, s, fullscan;
      var ysiz := Lvalue(block, p);
      if !full && ysiz > |s| {
        TooShortToMatch(p, s);
        return false;
      }
      ok := Anchored(nhedcl, p);
      assert Answer(Abs(), p, s, old(stack), old(nbs[..nhedcl]));
    }

    /** SCNR3: the cursor at the start, a history list that only holds the trap
        for total failure, and off to the first node. */
    method Anchored(nhedcl: nat, ghost p: Pat) returns (ok: bool)
      requires Valid() && nhedcl <= namicl
      requires code == Block(p) && WellFormed(p) && (full ==> Stops(p, subj))
      modifies this`mode, this`patic, this`lenf, this`txsp, this`pdl, this`stack, this`nbs, this`namicl, this`nmover
      modifies this`tblbcs, this`tblscs, nbs, brktb.chrs, spantb.chrs
      ensures Valid() && ok == (mode == Matched)
      ensures Answer(Abs(), p, subj, old(stack), old(nbs[..nhedcl]))
    {
      hide Ends, Block, WellFormed, Stops, TablesOk, InputOk, Run, Answer, Final;
      txsp, namicl := 0, nhedcl;
      ghost var names := Names();
      var trap := Entry(Trap(SCFL), txsp, 0, lenf);
      pdl := [trap];
      mode, patic, lenf := Entering, 0, true;
      ghost var G := Context();
      ghost var n := ScanAnswers(G, p, trap, stack, names);
      Scin(G, Start(trap, stack, names), n);
      ok := mode == Matched;
    }
  }

  lemma RunZero(G: Ctx, st: State)
    ensures Run(G, st, 0) == st
  {
  }

  lemma NotYetFinal(G: Ctx, start: State, i: nat, n: nat, st: State)
    requires i <= n && st == Run(G, start, i) && Final(Run(G, start, n)) && (st.Scan? || st.Back?)
    ensures i < n
  {
  }

  lemma StaysFinal(G: Ctx, start: State, i: nat, n: nat, st: State)
    requires i <= n && st == Run(G, start, i) && !st.Scan? && !st.Back?
    ensures Run(G, start, n) == st
  {
    RunFinal(G, start, i, n);
  }
}
