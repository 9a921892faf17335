/**
 When the machine's meaning of a script is the structured one. The two differ at a loop that stands
 directly in the body of another loop, and at a `break` inside an if of its loop.
 */
module NshNesting {
  import opened Basics
  import opened NshMachine
  import opened NshStacks
  import opened NshTree

  /** A loop stands in the block itself, not inside an if. */
  predicate HasLoop(b: Block) {
    b.Cons? && (b.s.LoopStmt? || HasLoop(b.rest))
  }

  /** Nothing that can be reached in the block is a loop directly in the body of a loop, or a `break`
      inside an if of its loop. Behind a `break` directly in a loop body nothing is reached. */
  predicate Clean(b: Block, inLoop: bool, inIf: bool) {
    b.Cons? ==>
      if inLoop && b.s.BreakStmt? then !inIf else CleanStmt(b.s, inLoop) && Clean(b.rest, inLoop, inIf)
  }

  predicate CleanStmt(s: Stmt, inLoop: bool) {
    match s
    case Simple(_) | BreakStmt => true
    case IfStmt(_, _, thn, hasElse, els) => Clean(thn, inLoop, inLoop) && (hasElse ==> Clean(els, inLoop, inLoop))
    case LoopStmt(_, _, body) => !HasLoop(body) && Clean(body, true, false)
  }

  // ----- clean scripts -----

  /** Without a loop in it, a body that is off does nothing. */
  lemma {:induction false} OffIsIdle(b: Block, o: Oracle, h: seq<Event>, fail: bool, ld: nat, inIf: bool, n: nat)
    requires !HasLoop(b)
    ensures FlatBlock(b, o, h, fail, true, ld, inIf, n) == Ended(h, fail, true)
    decreases b
  {
    if b.Cons? {
      OffIsIdle(b.rest, o, h, fail, ld, inIf, n);
    }
  }

  /** The machine's meaning is the structured one, and only a loop body itself is left by `break`. */
  lemma {:induction false} Agrees(b: Block, o: Oracle, h: seq<Event>, fail: bool, ld: nat, inIf: bool, n: nat)
    requires Clean(b, ld > 0, inIf) && (ld > 0 && !inIf ==> !HasLoop(b)) && (inIf ==> ld > 0)
    ensures var r := ExecBlock(b, o, h, fail, ld > 0, n);
            FlatBlock(b, o, h, fail, false, ld, inIf, n) == r && (r.Ended? && r.off ==> ld > 0 && !inIf)
    decreases n, b, 0
  {
    match b
    case Nil =>
    case Cons(s, rest) =>
      if s.BreakStmt? && ld > 0 {
        OffIsIdle(rest, o, h + [Event([Break], fail)], false, ld, inIf, n);
      } else {
        AgreesStmt(s, o, h, fail, ld, inIf, n);
        var r := Exec(s, o, h, fail, ld > 0, n);
        if r.Ended? {
          Agrees(rest, o, r.history, r.fail, ld, inIf, n);
        }
      }
  }

  lemma {:induction false} AgreesStmt(s: Stmt, o: Oracle, h: seq<Event>, fail: bool, ld: nat, inIf: bool, n: nat)
    requires CleanStmt(s, ld > 0) && !(s.BreakStmt? && ld > 0) && (inIf ==> ld > 0)
    ensures var r := Exec(s, o, h, fail, ld > 0, n);
            Flat(s, o, h, fail, false, ld, inIf, n) == r && (r.Ended? ==> !r.off)
    decreases n, s, 1
  {
    var h' := if s.IfStmt? || s.LoopStmt? then h + [Event(s.c, fail)] else h;
    match s
    case Simple(_) | BreakStmt =>
    case IfStmt(inv, c, thn, hasElse, els) =>
      if o(h') == inv {
        Agrees(thn, o, h', false, ld, ld > 0, n);
      } else if hasElse {
        Agrees(els, o, h', false, ld, ld > 0, n);
      }
    case LoopStmt(until, c, body) =>
      if n > 0 && o(h') != until {
        OffIsIdle(body, o, h', false, ld + 1, false, n);
      } else if n > 0 {
        Agrees(body, o, h', false, ld + 1, false, n);
        var r := ExecBlock(body, o, h', false, true, n);
        if r.Ended? && !r.off {
          AgreesStmt(s, o, r.history, r.fail, ld, inIf, n - 1);
        }
      }
  }

  // ----- the shortest run -----

  /** Results of commands that take the structured run through a block with as few commands as can be,
      to the end of it and on with kn, or out of its loop and on with kb. Every command succeeds. */
  function Path(b: Block, inLoop: bool, kn: seq<bool>, kb: seq<bool>): seq<bool> {
    match b
    case Nil => kn
    case Cons(s, rest) =>
      if inLoop && s.BreakStmt? then [false] + kb
      else PathStmt(s, inLoop, Path(rest, inLoop, kn, kb), kb)
  }

  function PathStmt(s: Stmt, inLoop: bool, k: seq<bool>, kb: seq<bool>): seq<bool> {
    match s
    case Simple(_) | BreakStmt => [false] + k
    case IfStmt(inv, _, thn, hasElse, els) =>
      var t := Path(thn, inLoop, k, kb);
      var e := if hasElse then Path(els, inLoop, k, kb) else k;
      if |t| <= |e| then [inv] + t else [!inv] + e
    case LoopStmt(until, _, _) => [!until] + k
  }

  /** The results of the commands that come after l others. */
  ghost predicate Gives(o: Oracle, l: nat, rs: seq<bool>) {
    forall h: seq<Event> {:trigger o(h)} :: l < |h| <= l + |rs| ==> o(h) == rs[|h| - l - 1]
  }

  lemma {:induction false} GivesNext(o: Oracle, h: seq<Event>, e: Event, r: bool, rs: seq<bool>)
    requires Gives(o, |h|, [r] + rs)
    ensures o(h + [e]) == r && Gives(o, |h + [e]|, rs)
  {
    forall g: seq<Event> | |h| + 1 < |g| <= |h| + 1 + |rs| ensures o(g) == rs[|g| - |h| - 2] {
      assert ([r] + rs)[|g| - |h| - 1] == rs[|g| - |h| - 2];
    }
  }

  /** No command from the l-th on saw a failure. */
  ghost predicate Quiet(h: seq<Event>, l: nat) {
    forall i :: l <= i < |h| ==> !h[i].status
  }

  /** A run from h on that ended quietly, with rs of its results used up and the rest still to come. */
  ghost predicate Used(o: Oracle, h: seq<Event>, rs: seq<bool>, r: Outcome, kn: seq<bool>, kb: seq<bool>) {
    && r.Ended? && !r.fail && h <= r.history && Quiet(r.history, |h|)
    && var k := if r.off then kb else kn;
       |r.history| + |k| == |h| + |rs| && Gives(o, |r.history|, k)
  }

  /** With those results the structured run of a block takes that path. */
  lemma {:induction false} PathRuns(b: Block, o: Oracle, h: seq<Event>, inLoop: bool, n: nat, kn: seq<bool>, kb: seq<bool>)
    requires Gives(o, |h|, Path(b, inLoop, kn, kb))
    ensures var r := ExecBlock(b, o, h, false, inLoop, n);
            (n > 0 ==> r.Ended?) && (r.Ended? ==> Used(o, h, Path(b, inLoop, kn, kb), r, kn, kb))
    decreases b, 0
  {
    match b
    case Nil =>
    case Cons(s, rest) =>
      if inLoop && s.BreakStmt? {
        GivesNext(o, h, Event([Break], false), false, kb);
      } else {
        var k := Path(rest, inLoop, kn, kb);
        PathStmtRuns(s, o, h, inLoop, n, k, kb);
        var r := Exec(s, o, h, false, inLoop, n);
        if r.Ended? && !r.off {
          PathRuns(rest, o, r.history, inLoop, n, kn, kb);
        }
      }
  }

  lemma {:induction false} PathStmtRuns(s: Stmt, o: Oracle, h: seq<Event>, inLoop: bool, n: nat, k: seq<bool>, kb: seq<bool>)
    requires !(inLoop && s.BreakStmt?) && Gives(o, |h|, PathStmt(s, inLoop, k, kb))
    ensures var r := Exec(s, o, h, false, inLoop, n);
            (n > 0 ==> r.Ended?) && (r.Ended? ==> Used(o, h, PathStmt(s, inLoop, k, kb), r, k, kb))
    decreases s, 1
  {
    match s
    case Simple(c) => GivesNext(o, h, Event(c, false), false, k);
    case BreakStmt => GivesNext(o, h, Event([Break], false), false, k);
    case IfStmt(inv, c, thn, hasElse, els) =>
      var t := Path(thn, inLoop, k, kb);
      var e := if hasElse then Path(els, inLoop, k, kb) else k;
      var h' := h + [Event(c, false)];
      if |t| <= |e| {
        GivesNext(o, h, Event(c, false), inv, t);
        PathRuns(thn, o, h', inLoop, n, k, kb);
      } else {
        GivesNext(o, h, Event(c, false), !inv, e);
        if hasElse {
          PathRuns(els, o, h', inLoop, n, k, kb);
        }
      }
    case LoopStmt(until, c, body) => GivesNext(o, h, Event(c, false), !until, k);
  }

  // ----- the machine takes no shorter one -----

  /** The machine never ends a block with fewer commands than that, whatever the results. */
  lemma {:induction false} FlatLeast(b: Block, o: Oracle, h: seq<Event>, fail: bool, ld: nat, inIf: bool, n: nat,
                                     kn: seq<bool>, kb: seq<bool>)
    requires FlatBlock(b, o, h, fail, false, ld, inIf, n).Ended? && (inIf ==> ld > 0)
    ensures var r := FlatBlock(b, o, h, fail, false, ld, inIf, n);
            |r.history| + |if r.off then kb else kn| >= |h| + |Path(b, ld > 0, kn, kb)|
    decreases b, 1
  {
    match b
    case Nil =>
    case Cons(s, rest) =>
      var r := Flat(s, o, h, fail, false, ld, inIf, n);
      if ld > 0 && s.BreakStmt? {
        OffGrows(rest, o, r.history, r.fail, ld, inIf, n);
      } else {
        FlatLeastStmt(s, o, h, fail, ld, inIf, n, Path(rest, ld > 0, kn, kb), kb);
        FlatLeast(rest, o, r.history, r.fail, ld, inIf, n, kn, kb);
      }
  }

  lemma {:induction false} FlatLeastStmt(s: Stmt, o: Oracle, h: seq<Event>, fail: bool, ld: nat, inIf: bool, n: nat,
                                         k: seq<bool>, kb: seq<bool>)
    requires Flat(s, o, h, fail, false, ld, inIf, n).Ended? && !(ld > 0 && s.BreakStmt?) && (inIf ==> ld > 0)
    ensures var r := Flat(s, o, h, fail, false, ld, inIf, n);
            !r.off && |r.history| + |k| >= |h| + |PathStmt(s, ld > 0, k, kb)|
    decreases s, 2
  {
    StmtOffStays(s, o, h, fail, false, ld, inIf, n);
    match s
    case Simple(_) | BreakStmt =>
    case IfStmt(inv, c, thn, hasElse, els) =>
      var h' := h + [Event(c, fail)];
      if o(h') == inv {
        FlatLeast(thn, o, h', false, ld, ld > 0, n, k, kb);
      } else if hasElse {
        FlatLeast(els, o, h', false, ld, ld > 0, n, k, kb);
      }
    case LoopStmt(_, _, _) =>
      LoopGrows(s, o, h, fail, false, ld, inIf, n);
  }

  /** The history only ever grows, whatever the outcome. */
  lemma {:induction false} Grows(b: Block, o: Oracle, h: seq<Event>, fail: bool, off: bool, ld: nat, inIf: bool, n: nat)
    ensures |FlatBlock(b, o, h, fail, off, ld, inIf, n).history| >= |h|
    decreases n, b, 0
  {
    match b
    case Nil =>
    case Cons(s, rest) =>
      StmtGrows(s, o, h, fail, off, ld, inIf, n);
      var r := Flat(s, o, h, fail, off, ld, inIf, n);
      if r.Ended? {
        Grows(rest, o, r.history, r.fail, r.off, ld, inIf, n);
      }
  }

  lemma {:induction false} StmtGrows(s: Stmt, o: Oracle, h: seq<Event>, fail: bool, off: bool, ld: nat, inIf: bool, n: nat)
    ensures |Flat(s, o, h, fail, off, ld, inIf, n).history| >= |h|
    decreases n, s, 1
  {
    match s
    case Simple(_) | BreakStmt =>
    case IfStmt(inv, c, thn, hasElse, els) =>
      var h' := h + [Event(c, fail)];
      if !off {
        Grows(thn, o, h', false, false, ld, ld > 0, n);
        Grows(els, o, h', false, false, ld, ld > 0, n);
      }
    case LoopStmt(until, c, body) =>
      if n > 0 {
        var h' := h + [Event(c, fail)];
        Grows(body, o, h', false, o(h') != until, ld + 1, false, n);
        var r := FlatBlock(body, o, h', false, o(h') != until, ld + 1, false, n);
        if r.Ended? && !r.off {
          StmtGrows(s, o, r.history, r.fail, off, ld, inIf, n - 1);
        }
      }
  }

  /** A loop runs its condition at least once, on or off. */
  lemma {:induction false} LoopGrows(s: Stmt, o: Oracle, h: seq<Event>, fail: bool, off: bool, ld: nat, inIf: bool, n: nat)
    requires s.LoopStmt? && !Flat(s, o, h, fail, off, ld, inIf, n).Timeout?
    ensures |Flat(s, o, h, fail, off, ld, inIf, n).history| > |h|
  {
    var h' := h + [Event(s.c, fail)];
    Grows(s.body, o, h', false, o(h') != s.until, ld + 1, false, n);
    var r := FlatBlock(s.body, o, h', false, o(h') != s.until, ld + 1, false, n);
    if r.Ended? && !r.off {
      StmtGrows(s, o, r.history, r.fail, off, ld, inIf, n - 1);
    }
  }

  /** A body that is off runs the condition of a loop in it all the same. */
  lemma {:induction false} OffGrows(b: Block, o: Oracle, h: seq<Event>, fail: bool, ld: nat, inIf: bool, n: nat)
    requires !FlatBlock(b, o, h, fail, true, ld, inIf, n).Timeout?
    ensures var r := FlatBlock(b, o, h, fail, true, ld, inIf, n);
            |r.history| >= |h| + (if HasLoop(b) then 1 else 0) && (r.Ended? ==> r.off)
    decreases b
  {
    if b.Cons? {
      var r := Flat(b.s, o, h, fail, true, ld, inIf, n);
      if b.s.LoopStmt? {
        LoopGrows(b.s, o, h, fail, true, ld, inIf, n);
      }
      if r.Ended? {
        StmtOffStays(b.s, o, h, fail, true, ld, inIf, n);
        OffGrows(b.rest, o, r.history, r.fail, ld, inIf, n);
      }
    }
  }

  // ----- results that show the difference -----

  /** Results that lead the structured run to the first place that is not clean: to a `break` inside an
      if, or out of a loop in whose body a loop stands; and from there on along the path. */
  function Witness(b: Block, inLoop: bool, inIf: bool, kn: seq<bool>, kb: seq<bool>): seq<bool>
    requires !Clean(b, inLoop, inIf)
  {
    if inLoop && b.s.BreakStmt? then [false] + kb
    else if CleanStmt(b.s, inLoop) then PathStmt(b.s, inLoop, Witness(b.rest, inLoop, inIf, kn, kb), kb)
    else WitnessStmt(b.s, inLoop, Path(b.rest, inLoop, kn, kb), kb)
  }

  function WitnessStmt(s: Stmt, inLoop: bool, k: seq<bool>, kb: seq<bool>): seq<bool>
    requires !CleanStmt(s, inLoop)
  {
    match s
    case IfStmt(inv, _, thn, hasElse, els) =>
      if !Clean(thn, inLoop, inLoop) then [inv] + Witness(thn, inLoop, inLoop, k, kb)
      else [!inv] + Witness(els, inLoop, inLoop, k, kb)
    case LoopStmt(until, _, body) =>
      if HasLoop(body) then [!until] + k else [until] + Witness(body, true, false, [!until] + k, k)
  }

  /** With the witness results the structured run ends, and every command succeeds. */
  lemma {:induction false} WitnessEnds(b: Block, o: Oracle, h: seq<Event>, inLoop: bool, inIf: bool, n: nat,
                                       kn: seq<bool>, kb: seq<bool>)
    requires n > 1 && !Clean(b, inLoop, inIf) && Gives(o, |h|, Witness(b, inLoop, inIf, kn, kb))
    ensures Used(o, h, Witness(b, inLoop, inIf, kn, kb), ExecBlock(b, o, h, false, inLoop, n), kn, kb)
    decreases b, 0
  {
    var r := Exec(b.s, o, h, false, inLoop, n);
    if inLoop && b.s.BreakStmt? {
      GivesNext(o, h, Event([Break], false), false, kb);
    } else if CleanStmt(b.s, inLoop) {
      PathStmtRuns(b.s, o, h, inLoop, n, Witness(b.rest, inLoop, inIf, kn, kb), kb);
      CleanStays(b.s, o, h, false, inLoop, n);
      WitnessEnds(b.rest, o, r.history, inLoop, inIf, n, kn, kb);
    } else {
      WitnessEndsStmt(b.s, o, h, inLoop, n, Path(b.rest, inLoop, kn, kb), kb);
      if !r.off {
        PathRuns(b.rest, o, r.history, inLoop, n, kn, kb);
      }
    }
  }

  /** A clean statement is left by no `break`. */
  lemma {:induction false} CleanStays(s: Stmt, o: Oracle, h: seq<Event>, fail: bool, inLoop: bool, n: nat)
    requires CleanStmt(s, inLoop) && !(s.BreakStmt? && inLoop)
    ensures var r := Exec(s, o, h, fail, inLoop, n); r.Ended? ==> !r.off
  {
    AgreesStmt(s, o, h, fail, if inLoop then 1 else 0, false, n);
  }

  lemma {:induction false} WitnessEndsStmt(s: Stmt, o: Oracle, h: seq<Event>, inLoop: bool, n: nat, k: seq<bool>, kb: seq<bool>)
    requires n > 1 && !CleanStmt(s, inLoop) && Gives(o, |h|, WitnessStmt(s, inLoop, k, kb))
    ensures Used(o, h, WitnessStmt(s, inLoop, k, kb), Exec(s, o, h, false, inLoop, n), k, kb)
    decreases s, 1
  {
    match s
    case IfStmt(inv, c, thn, hasElse, els) =>
      var h' := h + [Event(c, false)];
      if !Clean(thn, inLoop, inLoop) {
        GivesNext(o, h, Event(c, false), inv, Witness(thn, inLoop, inLoop, k, kb));
        WitnessEnds(thn, o, h', inLoop, inLoop, n, k, kb);
      } else {
        GivesNext(o, h, Event(c, false), !inv, Witness(els, inLoop, inLoop, k, kb));
        WitnessEnds(els, o, h', inLoop, inLoop, n, k, kb);
      }
    case LoopStmt(until, c, body) =>
      if HasLoop(body) {
        GivesNext(o, h, Event(c, false), !until, k);
      } else {
        RoundEnds(s, o, h, inLoop, n, k, kb);
      }
  }

  lemma {:induction false} RoundEnds(s: Stmt, o: Oracle, h: seq<Event>, inLoop: bool, n: nat, k: seq<bool>, kb: seq<bool>)
    requires n > 1 && s.LoopStmt? && !HasLoop(s.body) && !Clean(s.body, true, false)
    requires Gives(o, |h|, WitnessStmt(s, inLoop, k, kb))
    ensures Used(o, h, WitnessStmt(s, inLoop, k, kb), Exec(s, o, h, false, inLoop, n), k, kb)
    decreases s, 0
  {
    var h' := h + [Event(s.c, false)];
    GivesNext(o, h, Event(s.c, false), s.until, Witness(s.body, true, false, [!s.until] + k, k));
    WitnessEnds(s.body, o, h', true, false, n, [!s.until] + k, k);
    var r := ExecBlock(s.body, o, h', false, true, n);
    if !r.off {
      GivesNext(o, r.history, Event(s.c, false), !s.until, k);
    }
  }

  /** With them the machine loses its place, or runs more commands. */
  lemma {:induction false} WitnessLags(b: Block, o: Oracle, h: seq<Event>, ld: nat, inIf: bool, n: nat,
                                       kn: seq<bool>, kb: seq<bool>)
    requires !Clean(b, ld > 0, inIf) && Gives(o, |h|, Witness(b, ld > 0, inIf, kn, kb)) && (inIf ==> ld > 0)
    requires FlatBlock(b, o, h, false, false, ld, inIf, n).Ended?
    ensures var r := FlatBlock(b, o, h, false, false, ld, inIf, n);
            |r.history| + |if r.off then kb else kn| > |h| + |Witness(b, ld > 0, inIf, kn, kb)|
    decreases b, 0
  {
    var r := Flat(b.s, o, h, false, false, ld, inIf, n);
    if CleanStmt(b.s, ld > 0) {
      PathStmtRuns(b.s, o, h, ld > 0, n, Witness(b.rest, ld > 0, inIf, kn, kb), kb);
      AgreesStmt(b.s, o, h, false, ld, inIf, n);
      WitnessLags(b.rest, o, r.history, ld, inIf, n, kn, kb);
    } else {
      WitnessLagsStmt(b.s, o, h, ld, inIf, n, Path(b.rest, ld > 0, kn, kb), kb);
      FlatLeast(b.rest, o, r.history, r.fail, ld, inIf, n, kn, kb);
    }
  }

  lemma {:induction false} WitnessLagsStmt(s: Stmt, o: Oracle, h: seq<Event>, ld: nat, inIf: bool, n: nat,
                                           k: seq<bool>, kb: seq<bool>)
    requires !CleanStmt(s, ld > 0) && Gives(o, |h|, WitnessStmt(s, ld > 0, k, kb)) && (inIf ==> ld > 0)
    requires Flat(s, o, h, false, false, ld, inIf, n).Ended?
    ensures var r := Flat(s, o, h, false, false, ld, inIf, n);
            !r.off && |r.history| + |k| > |h| + |WitnessStmt(s, ld > 0, k, kb)|
    decreases s, 1
  {
    StmtOffStays(s, o, h, false, false, ld, inIf, n);
    match s
    case IfStmt(inv, c, thn, hasElse, els) =>
      var h' := h + [Event(c, false)];
      if !Clean(thn, ld > 0, ld > 0) {
        GivesNext(o, h, Event(c, false), inv, Witness(thn, ld > 0, ld > 0, k, kb));
        WitnessLags(thn, o, h', ld, ld > 0, n, k, kb);
      } else {
        GivesNext(o, h, Event(c, false), !inv, Witness(els, ld > 0, ld > 0, k, kb));
        WitnessLags(els, o, h', ld, ld > 0, n, k, kb);
      }
    case LoopStmt(until, c, body) =>
      if HasLoop(body) {
        NestedLags(s, o, h, ld, inIf, n, k);
      } else {
        RoundLags(s, o, h, ld, inIf, n, k, kb);
      }
  }

  lemma {:induction false} NestedLags(s: Stmt, o: Oracle, h: seq<Event>, ld: nat, inIf: bool, n: nat, k: seq<bool>)
    requires s.LoopStmt? && HasLoop(s.body) && Gives(o, |h|, [!s.until] + k)
    requires !Flat(s, o, h, false, false, ld, inIf, n).Timeout?
    ensures |Flat(s, o, h, false, false, ld, inIf, n).history| > |h| + 1
  {
    var h' := h + [Event(s.c, false)];
    GivesNext(o, h, Event(s.c, false), !s.until, k);
    OffGrows(s.body, o, h', false, ld + 1, false, n);
  }

  lemma {:induction false} RoundLags(s: Stmt, o: Oracle, h: seq<Event>, ld: nat, inIf: bool, n: nat, k: seq<bool>, kb: seq<bool>)
    requires s.LoopStmt? && !HasLoop(s.body) && !Clean(s.body, true, false)
    requires Gives(o, |h|, WitnessStmt(s, ld > 0, k, kb)) && Flat(s, o, h, false, false, ld, inIf, n).Ended?
    ensures |Flat(s, o, h, false, false, ld, inIf, n).history| + |k| > |h| + |WitnessStmt(s, ld > 0, k, kb)|
    decreases s, 0
  {
    var h' := h + [Event(s.c, false)];
    GivesNext(o, h, Event(s.c, false), s.until, Witness(s.body, true, false, [!s.until] + k, k));
    WitnessLags(s.body, o, h', ld + 1, false, n, [!s.until] + k, k);
    var r := FlatBlock(s.body, o, h', false, false, ld + 1, false, n);
    if !r.off {
      LoopGrows(s, o, r.history, r.fail, false, ld, inIf, n - 1);
    }
  }

  // ----- the exact condition -----

  /** Whenever the structured run of the script ends, the machine keeps its place and ends the same way. */
  ghost predicate Faithful(b: Block) {
    forall o: Oracle, h: seq<Event>, fail: bool, n: nat :: ExecBlock(b, o, h, fail, false, n).Ended? ==>
      exists m: nat :: FlatBlock(b, o, h, fail, false, 0, false, m) == ExecBlock(b, o, h, fail, false, n)
  }

  /** The oracle that gives the results in turn. */
  ghost function Giving(rs: seq<bool>): (o: Oracle)
    ensures Gives(o, 0, rs)
  {
    h => 0 < |h| <= |rs| && rs[|h| - 1]
  }

  /** The machine is faithful, for all results of commands, if and only if the script is clean. */
  lemma {:induction false} NestingExact(b: Block)
    ensures Faithful(b) <==> Clean(b, false, false)
  {
    if Clean(b, false, false) {
      forall o: Oracle, h: seq<Event>, fail: bool, n: nat | ExecBlock(b, o, h, fail, false, n).Ended?
        ensures exists m: nat :: FlatBlock(b, o, h, fail, false, 0, false, m) == ExecBlock(b, o, h, fail, false, n)
      {
        Agrees(b, o, h, fail, 0, false, n);
      }
    } else {
      var rs := Witness(b, false, false, [], []);
      var o := Giving(rs);
      WitnessEnds(b, o, [], false, false, 2, [], []);
      forall m: nat ensures FlatBlock(b, o, [], false, false, 0, false, m) != ExecBlock(b, o, [], false, false, 2) {
        if FlatBlock(b, o, [], false, false, 0, false, m).Ended? {
          WitnessLags(b, o, [], 0, false, m, [], []);
        }
      }
    }
  }
}
