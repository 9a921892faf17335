/**
 Exactly which scripts the array machine runs as their trees say.
 */
module NshExact {
  import opened Basics
  import opened NshMachine
  import opened NshStacks
  import opened NshTree
  import opened NshLayout
  import opened NshRefine
  import opened NshNesting
  import opened NshStray
  import opened NshScripts

  /** In every session with n stack entries, and whatever the commands do, the machine finishes the script
      as the structured run ends, if that ends. */
  ghost predicate Behaves(b: Block, n: nat) {
    forall r: Reader, p: Parser, m: nat {:trigger TreeRun(b, r, p, m)} ::
      Starts(b, r, p) && |p.ie| == n && TreeRun(b, r, p, m).Ended? ==>
        Halts(b, r, p, TreeRun(b, r, p, m).history, TreeRun(b, r, p, m).fail)
  }

  /** A clean script behaves. */
  lemma {:induction false} CleanBehaves(b: Block, n: nat)
    requires Clean(b, false, false)
    ensures Behaves(b, n)
  {
    forall r: Reader, p: Parser, m: nat {:trigger TreeRun(b, r, p, m)}
      | Starts(b, r, p) && |p.ie| == n && TreeRun(b, r, p, m).Ended?
      ensures Halts(b, r, p, TreeRun(b, r, p, m).history, TreeRun(b, r, p, m).fail)
    {
      var e := TreeRun(b, r, p, m);
      NeverOff(b, r.o, p.history, p.fail, m);
      assert e == Ended(e.history, e.fail, false);
      MachineIsStructured(b, r, p, e.history, e.fail);
    }
  }

  lemma {:induction false} NeverOff(b: Block, o: Oracle, h: seq<Event>, fail: bool, n: nat)
    requires Clean(b, false, false)
    ensures var r := ExecBlock(b, o, h, fail, false, n); r.Ended? ==> !r.off
  {
    Agrees(b, o, h, fail, 0, false, n);
  }

  // ----- scripts that are not clean -----

  /** A session that has run nothing. */
  ghost function Blank(n: nat): (p: Parser)
    requires 1 <= n <= 256
    ensures AtStart(p) && Still(p) && |p.ie| == n && p.history == [] && !p.fail
  {
    Parser(false, false, true, 0, 0, 0, 0, seq(n, _ => LoopEntry(LNormal, true, 0, 0)), seq(n, _ => ResetIf), [])
  }

  /** A session that runs the script, with the witness results and from a blank state, and finishes as the
      structured run has lost its place on the way, inside a loop in a loop. */
  lemma {:induction false} EndsLost(b: Block, r: Reader, p: Parser, k: nat)
    requires !Clean(b, false, false) && Starts(b, r, p) && Still(p) && p.history == [] && !p.fail
    requires Gives(r.o, 0, Witness(b, false, false, [], [])) && Finished(b, Run(r, p, k))
    requires Run(r, p, k).history == TreeRun(b, r, p, 2).history && !Run(r, p, k).fail
    ensures var e := FlatRun(b, r, p, k);
            e.Lost? && e.nested && |e.history| <= |Witness(b, false, false, [], [])|
  {
    var e := FlatRun(b, r, p, k);
    WitnessEnds(b, r.o, [], false, false, 2, [], []);
    EndIsFlat(b, r, p, k);
    if e.Ended? {
      WitnessLags(b, r.o, [], 0, false, k, [], []);
    } else {
      LostKeeps(b, r, p, k, k);
      if !e.nested {
        LostShows(b, r, p, k, k);
      }
    }
  }

  /** So a script that is not clean can behave only by that. */
  lemma {:induction false} BehavesLost(b: Block, n: nat) returns (o: Oracle, k: nat)
    requires !Clean(b, false, false) && 1 <= n <= 256 && Fits(b, 0, 0, n) && Behaves(b, n)
    ensures Gives(o, 0, Witness(b, false, false, [], []))
    ensures var e := FlatBlock(b, o, [], false, false, 0, false, k);
            e.Lost? && e.nested && |e.history| <= |Witness(b, false, false, [], [])|
  {
    o := Giving(Witness(b, false, false, [], []));
    var r, p := ReaderOf(Script(Lines(b)), o), Blank(n);
    WitnessEnds(b, o, [], false, false, 2, [], []);
    var e := TreeRun(b, r, p, 2);
    assert Halts(b, r, p, e.history, e.fail);
    k :| EndsAs(Run(r, p, k), b, Ended(e.history, e.fail, false), p);
    EndsLost(b, r, p, k);
  }

  // ----- scripts without a `break` inside an if of a loop in a loop -----

  /** No loop inside another loop holds a `break` inside an if. */
  predicate Solo(b: Block, ld: nat, inIf: bool) {
    b.Cons? ==> SoloStmt(b.s, ld, inIf) && Solo(b.rest, ld, inIf)
  }

  predicate SoloStmt(s: Stmt, ld: nat, inIf: bool) {
    match s
    case Simple(_) => true
    case BreakStmt => !(inIf && ld > 1)
    case IfStmt(_, _, thn, hasElse, els) => Solo(thn, ld, ld > 0) && (hasElse ==> Solo(els, ld, ld > 0))
    case LoopStmt(_, _, body) => Solo(body, ld + 1, false)
  }

  lemma {:induction false} SoloPlace(b: Block, o: Oracle, h: seq<Event>, fail: bool, off: bool, ld: nat, inIf: bool, n: nat)
    requires Solo(b, ld, inIf)
    ensures var r := FlatBlock(b, o, h, fail, off, ld, inIf, n); r.Lost? ==> !r.nested
    decreases n, b, 0
  {
    match b
    case Nil =>
    case Cons(s, rest) =>
      SoloPlaceStmt(s, o, h, fail, off, ld, inIf, n);
      var r := Flat(s, o, h, fail, off, ld, inIf, n);
      if r.Ended? {
        SoloPlace(rest, o, r.history, r.fail, r.off, ld, inIf, n);
      }
  }

  lemma {:induction false} SoloPlaceStmt(s: Stmt, o: Oracle, h: seq<Event>, fail: bool, off: bool, ld: nat, inIf: bool, n: nat)
    requires SoloStmt(s, ld, inIf)
    ensures var r := Flat(s, o, h, fail, off, ld, inIf, n); r.Lost? ==> !r.nested
    decreases n, s, 1
  {
    var h' := if s.IfStmt? || s.LoopStmt? then h + [Event(s.c, fail)] else h;
    match s
    case Simple(_) | BreakStmt =>
    case IfStmt(inv, c, thn, hasElse, els) =>
      if !off && o(h') == inv {
        SoloPlace(thn, o, h', false, false, ld, ld > 0, n);
      } else if !off && hasElse {
        SoloPlace(els, o, h', false, false, ld, ld > 0, n);
      }
    case LoopStmt(until, c, body) =>
      if n > 0 {
        SoloPlace(body, o, h', false, o(h') != until, ld + 1, false, n);
        var r := FlatBlock(body, o, h', false, o(h') != until, ld + 1, false, n);
        if r.Ended? && !r.off {
          SoloPlaceStmt(s, o, r.history, r.fail, off, ld, inIf, n - 1);
        }
      }
  }

  /** Such a script behaves, in sessions it fits, if and only if it is clean. */
  lemma {:induction false} BehavesExact(b: Block, n: nat)
    requires 1 <= n <= 256 && Fits(b, 0, 0, n) && Solo(b, 0, false)
    ensures Behaves(b, n) <==> Clean(b, false, false)
  {
    if Clean(b, false, false) {
      CleanBehaves(b, n);
    } else if Behaves(b, n) {
      var o, k := BehavesLost(b, n);
      SoloPlace(b, o, [], false, false, 0, false, k);
    }
  }

  // ----- all scripts, loop by loop -----

  /** Every loop that can be reached, run as a script of its own, behaves. */
  ghost predicate EachBehaves(b: Block, inLoop: bool, n: nat) {
    b.Cons? ==> EachBehavesStmt(b.s, inLoop, n) && ((inLoop && b.s.BreakStmt?) || EachBehaves(b.rest, inLoop, n))
  }

  ghost predicate EachBehavesStmt(s: Stmt, inLoop: bool, n: nat) {
    match s
    case Simple(_) | BreakStmt => true
    case IfStmt(_, _, thn, hasElse, els) => EachBehaves(thn, inLoop, n) && (hasElse ==> EachBehaves(els, inLoop, n))
    case LoopStmt(_, _, body) => Behaves(Cons(s, Nil), n) && EachBehaves(body, true, n)
  }

  /** Every loop that can be reached is clean. */
  predicate LoopsClean(b: Block, inLoop: bool) {
    b.Cons? ==> LoopsCleanStmt(b.s, inLoop) && ((inLoop && b.s.BreakStmt?) || LoopsClean(b.rest, inLoop))
  }

  predicate LoopsCleanStmt(s: Stmt, inLoop: bool) {
    match s
    case Simple(_) | BreakStmt => true
    case IfStmt(_, _, thn, hasElse, els) => LoopsClean(thn, inLoop) && (hasElse ==> LoopsClean(els, inLoop))
    case LoopStmt(_, _, _) => CleanStmt(s, inLoop)
  }

  /** Outside loops nothing else matters. */
  lemma {:induction false} LoopsMatter(b: Block)
    ensures LoopsClean(b, false) <==> Clean(b, false, false)
    decreases b
  {
    if b.Cons? {
      if b.s.IfStmt? {
        LoopsMatter(b.s.thn);
        LoopsMatter(b.s.els);
      }
      LoopsMatter(b.rest);
    }
  }

  /** When the loops in a body are clean and the body is not, the witness results lead to a `break` inside
      an if of this very loop. */
  lemma {:induction false} WitnessLoses(b: Block, o: Oracle, h: seq<Event>, inIf: bool, n: nat, kn: seq<bool>, kb: seq<bool>)
    requires !Clean(b, true, inIf) && LoopsClean(b, true) && Gives(o, |h|, Witness(b, true, inIf, kn, kb))
    ensures var r := FlatBlock(b, o, h, false, false, 1, inIf, n); r.Timeout? || (r.Lost? && !r.nested)
    decreases b
  {
    var s := b.s;
    if CleanStmt(s, true) && !s.BreakStmt? {
      PathStmtRuns(s, o, h, true, n, Witness(b.rest, true, inIf, kn, kb), kb);
      AgreesStmt(s, o, h, false, 1, inIf, n);
      StmtNeverLost(s, o, h, false, true, n);
      var r := Exec(s, o, h, false, true, n);
      if r.Ended? {
        WitnessLoses(b.rest, o, r.history, inIf, n, kn, kb);
      }
    } else if s.IfStmt? {
      WitnessLosesIf(s, o, h, inIf, n, Path(b.rest, true, kn, kb), kb);
    }
  }

  lemma {:induction false} WitnessLosesIf(s: Stmt, o: Oracle, h: seq<Event>, inIf: bool, n: nat, k: seq<bool>, kb: seq<bool>)
    requires s.IfStmt? && !CleanStmt(s, true) && LoopsCleanStmt(s, true) && Gives(o, |h|, WitnessStmt(s, true, k, kb))
    ensures var r := Flat(s, o, h, false, false, 1, inIf, n); r.Timeout? || (r.Lost? && !r.nested)
    decreases s
  {
    var h' := h + [Event(s.c, false)];
    if !Clean(s.thn, true, true) {
      GivesNext(o, h, Event(s.c, false), s.inv, Witness(s.thn, true, true, k, kb));
      WitnessLoses(s.thn, o, h', true, n, k, kb);
    } else {
      GivesNext(o, h, Event(s.c, false), !s.inv, Witness(s.els, true, true, k, kb));
      WitnessLoses(s.els, o, h', true, n, k, kb);
    }
  }

  /** A loop that is not clean, though the loops in it are, does not behave as a script of its own. */
  lemma {:induction false} LoopMisbehaves(s: Stmt, n: nat)
    requires s.LoopStmt? && 1 <= n <= 256 && FitsStmt(s, 0, 0, n) && !CleanStmt(s, false) && LoopsClean(s.body, true)
    ensures !Behaves(Cons(s, Nil), n)
  {
    if Behaves(Cons(s, Nil), n) {
      var o, k := BehavesLost(Cons(s, Nil), n);
      if HasLoop(s.body) {
        NestedMore(s, o, k);
      } else {
        RoundLoses(s, o, k);
      }
    }
  }

  /** With a loop in its body: one command more. */
  lemma {:induction false} NestedMore(s: Stmt, o: Oracle, k: nat)
    requires s.LoopStmt? && HasLoop(s.body) && Gives(o, 0, Witness(Cons(s, Nil), false, false, [], []))
    ensures var r := FlatBlock(Cons(s, Nil), o, [], false, false, 0, false, k);
            r.Lost? ==> |r.history| > |Witness(Cons(s, Nil), false, false, [], [])|
  {
    assert WitnessStmt(s, false, [], []) == [!s.until] + [];
    var r := Flat(s, o, [], false, false, 0, false, k);
    if r.Lost? {
      NestedLags(s, o, [], 0, false, k, []);
    }
  }

  /** Without: the machine loses its place in this loop, if it loses it. */
  lemma {:induction false} RoundLoses(s: Stmt, o: Oracle, k: nat)
    requires s.LoopStmt? && !HasLoop(s.body) && !Clean(s.body, true, false) && LoopsClean(s.body, true)
    requires Gives(o, 0, Witness(Cons(s, Nil), false, false, [], []))
    ensures var r := FlatBlock(Cons(s, Nil), o, [], false, false, 0, false, k); r.Lost? ==> !r.nested
  {
    if k > 0 {
      var h := [] + [Event(s.c, false)];
      var rs := Witness(s.body, true, false, [!s.until], []);
      assert [!s.until] + [] == [!s.until];
      assert WitnessStmt(s, false, [], []) == [s.until] + rs;
      GivesNext(o, [], Event(s.c, false), s.until, rs);
      WitnessLoses(s.body, o, h, false, k, [!s.until], []);
    }
  }

  lemma {:induction false} FitsLess(b: Block, d: nat, ld: nat, d': nat, ld': nat, n: nat)
    requires d' <= d && ld' <= ld && Fits(b, d, ld, n)
    ensures Fits(b, d', ld', n)
    decreases b, 0
  {
    if b.Cons? {
      FitsLessStmt(b.s, d, ld, d', ld', n);
      FitsLess(b.rest, d, ld, d', ld', n);
    }
  }

  lemma {:induction false} FitsLessStmt(s: Stmt, d: nat, ld: nat, d': nat, ld': nat, n: nat)
    requires d' <= d && ld' <= ld && FitsStmt(s, d, ld, n)
    ensures FitsStmt(s, d', ld', n)
    decreases s, 1
  {
    match s
    case Simple(_) | BreakStmt =>
    case IfStmt(_, _, thn, _, els) =>
      FitsLess(thn, d + 1, ld, d' + 1, ld', n);
      FitsLess(els, d + 1, ld, d' + 1, ld', n);
    case LoopStmt(_, _, body) =>
      FitsLess(body, d, ld + 1, d', ld' + 1, n);
  }

  /** Loops that behave are clean, from the inside out. */
  lemma {:induction false} EachIsClean(b: Block, d: nat, ld: nat, inLoop: bool, n: nat)
    requires 1 <= n <= 256 && Fits(b, d, ld, n) && EachBehaves(b, inLoop, n)
    ensures LoopsClean(b, inLoop)
    decreases b, 0
  {
    if b.Cons? {
      EachIsCleanStmt(b.s, d, ld, inLoop, n);
      if !(inLoop && b.s.BreakStmt?) {
        EachIsClean(b.rest, d, ld, inLoop, n);
      }
    }
  }

  lemma {:induction false} EachIsCleanStmt(s: Stmt, d: nat, ld: nat, inLoop: bool, n: nat)
    requires 1 <= n <= 256 && FitsStmt(s, d, ld, n) && EachBehavesStmt(s, inLoop, n)
    ensures LoopsCleanStmt(s, inLoop)
    decreases s, 1
  {
    match s
    case Simple(_) | BreakStmt =>
    case IfStmt(_, _, thn, hasElse, els) =>
      EachIsClean(thn, d + 1, ld, inLoop, n);
      if hasElse {
        EachIsClean(els, d + 1, ld, inLoop, n);
      }
    case LoopStmt(_, _, body) =>
      EachIsClean(body, d, ld + 1, true, n);
      if !CleanStmt(s, false) {
        FitsLessStmt(s, d, ld, 0, 0, n);
        LoopMisbehaves(s, n);
      }
  }

  lemma {:induction false} CleanIsEach(b: Block, inLoop: bool, inIf: bool, n: nat)
    requires Clean(b, inLoop, inIf)
    ensures EachBehaves(b, inLoop, n)
    decreases b
  {
    if b.Cons? && !(inLoop && b.s.BreakStmt?) {
      var s := b.s;
      if s.IfStmt? {
        CleanIsEach(s.thn, inLoop, inLoop, n);
        if s.hasElse {
          CleanIsEach(s.els, inLoop, inLoop, n);
        }
      } else if s.LoopStmt? {
        CleanIsEach(s.body, true, false, n);
        CleanBehaves(Cons(s, Nil), n);
      }
      CleanIsEach(b.rest, inLoop, inIf, n);
    }
  }

  /** Of every script that fits: each loop of it, run as a script of its own, behaves, if and only if the
      script is clean; and then the script behaves. */
  lemma {:induction false} LoopsExact(b: Block, n: nat)
    requires 1 <= n <= 256 && Fits(b, 0, 0, n)
    ensures EachBehaves(b, false, n) <==> Clean(b, false, false)
    ensures EachBehaves(b, false, n) ==> Behaves(b, n)
  {
    if EachBehaves(b, false, n) {
      EachIsClean(b, 0, 0, false, n);
      LoopsMatter(b);
      CleanBehaves(b, n);
    }
    if Clean(b, false, false) {
      CleanIsEach(b, false, false, n);
    }
  }
}
