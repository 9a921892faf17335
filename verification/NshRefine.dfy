/**
 The machine runs every script the way its tree says: the simulation, from single lines up to
 whole scripts.
 */
module NshRefine {
  import opened Basics
  import opened NshMachine
  import opened NshStacks
  import opened NshTree
  import opened NshLayout

  // ----- composing steps -----

  lemma {:induction false} OneStep(c: Code, s: State, t: State)
    requires Sound(c) && s.pos < |c.ls| && Step(c.ls[s.pos], c.o, c.n, s) == Some(t)
    ensures Steps(c, s, 1) == Some(t)
  {
    assert Fires(s);
    assert Steps(c, t, 0) == Some(t);
  }

  /** Two lines. */
  lemma {:induction false} TwoSteps(c: Code, s: State, t: State, u: State)
    requires Sound(c) && s.pos < |c.ls| && Step(c.ls[s.pos], c.o, c.n, s) == Some(t)
    requires t.pos < |c.ls| && Step(c.ls[t.pos], c.o, c.n, t) == Some(u)
    ensures Steps(c, s, 2) == Some(u)
  {
    OneStep(c, s, t);
    OneStep(c, t, u);
    StepsAdd(c, s, 1, t, 1);
  }

  // ----- what single lines do -----

  /** The state after the lines `if` and `then`. */
  ghost function InThen(s: State, inv: bool, cmd: Command, o: Oracle): State {
    var t := s.Ran(cmd);
    if s.On() then t.(pos := s.pos + 2, fail := false, ifs := Push(IfEntry(IThen, false, inv != o(t.history), inv), s.ifs))
    else s.(pos := s.pos + 2, ifs := Push(IfEntry(IThen, true, false, inv), s.ifs))
  }

  lemma {:induction false} IfHead(c: Code, s: State, inv: bool, cmd: Command)
    requires Sound(c) && s.pos + 1 < |c.ls| && c.ls[s.pos] == IfLine(inv, cmd) && c.ls[s.pos + 1] == ThenLine
    requires s.Open() && s.ifs.Depth() + 1 < c.n
    ensures Steps(c, s, 2) == Some(InThen(s, inv, cmd, c.o))
  {
    var u := InThen(s, inv, cmd, c.o);
    TwoSteps(c, s, u.(pos := s.pos + 1, ifs := u.ifs.Set(u.ifs.top.(state := IIf))), u);
  }

  /** The state after the lines `while` or `until` and `do`. */
  ghost function InDo(s: State, until: bool, cmd: Command, o: Oracle): State {
    var t := s.Ran(cmd);
    var e := LoopEntry(LDo, false, s.ifs.Depth(), s.pos);
    if IfOn(s.ifs.top) then t.(pos := s.pos + 2, fail := false, loops := Push(e.(enable := until == o(t.history)), s.loops))
    else s.(pos := s.pos + 2, loops := Push(e, s.loops))
  }

  lemma {:induction false} LoopHead(c: Code, s: State, until: bool, cmd: Command)
    requires Sound(c) && s.pos + 1 < |c.ls| && c.ls[s.pos] == LoopLine(until, cmd) && c.ls[s.pos + 1] == DoLine
    requires s.Open() && s.loops.Depth() + 1 < c.n
    ensures Steps(c, s, 2) == Some(InDo(s, until, cmd, c.o))
  {
    var u := InDo(s, until, cmd, c.o);
    var e := u.loops.top.(state := if until then LUntil else LWhile);
    TwoSteps(c, s, u.(pos := s.pos + 1, loops := u.loops.Set(e)), u);
  }

  lemma {:induction false} DoneEnds(c: Code, s: State)
    requires Sound(c) && s.pos < |c.ls| && c.ls[s.pos] == DoneLine && s.loops.Push? && s.loops.top.state == LDo
    ensures Steps(c, s, 1)
         == Some(s.(pos := if s.loops.top.enable then s.loops.top.topoffs else s.pos + 1, loops := s.loops.below))
  {
    OneStep(c, s, Step(DoneLine, c.o, c.n, s).value);
  }

  lemma {:induction false} ElseTurns(c: Code, s: State)
    requires Sound(c) && s.pos < |c.ls| && c.ls[s.pos] == ElseLine && !Awaiting(s.loops.top) && s.ifs.top.state == IThen
    ensures Steps(c, s, 1) == Some(s.Next().(ifs := s.ifs.Set(s.ifs.top.(state := IElse))))
  {
    OneStep(c, s, Step(ElseLine, c.o, c.n, s).value);
  }

  lemma {:induction false} FiEnds(c: Code, s: State)
    requires Sound(c) && s.pos < |c.ls| && c.ls[s.pos] == FiLine && !Awaiting(s.loops.top) && s.ifs.Push?
    requires s.ifs.top.state == IThen || s.ifs.top.state == IElse
    ensures Steps(c, s, 1) == Some(s.Next().(ifs := s.ifs.below))
  {
    OneStep(c, s, Step(FiLine, c.o, c.n, s).value);
  }

  // ----- a disabled if -----

  /** Inside a disabled if every line is read and nothing happens. */
  lemma {:induction false} Skips(b: Block, c: Code, s: State)
    requires Sound(c) && At(c.ls, s.pos, Lines(b)) && s.Open() && !IfOn(s.ifs.top)
    requires Fits(b, s.ifs.Depth(), s.loops.Depth(), c.n)
    ensures Steps(c, s, |Lines(b)|) == Some(s.(pos := s.pos + |Lines(b)|))
    decreases b, 1
  {
    match b
    case Nil =>
    case Cons(x, rest) =>
      AtSplit(c.ls, s.pos, StmtLines(x), Lines(rest));
      SkipsStmt(x, c, s);
      var t := s.(pos := s.pos + |StmtLines(x)|);
      Skips(rest, c, t);
      StepsAdd(c, s, |StmtLines(x)|, t, |Lines(rest)|);
  }

  lemma {:induction false} SkipsStmt(x: Stmt, c: Code, s: State)
    requires Sound(c) && At(c.ls, s.pos, StmtLines(x)) && s.Open() && !IfOn(s.ifs.top)
    requires FitsStmt(x, s.ifs.Depth(), s.loops.Depth(), c.n)
    ensures Steps(c, s, |StmtLines(x)|) == Some(s.(pos := s.pos + |StmtLines(x)|))
    decreases x, 2
  {
    match x
    case Simple(cmd) =>
      AtOne(c.ls, s.pos, CmdLine(cmd));
      OneStep(c, s, s.Next());
    case BreakStmt =>
      AtOne(c.ls, s.pos, BreakLine);
      OneStep(c, s, s.Next());
    case IfStmt(_, _, _, _, _) =>
      SkipsIf(x, c, s);
    case LoopStmt(_, _, _) =>
      SkipsLoop(x, c, s);
  }

  lemma {:induction false} SkipsLoop(x: Stmt, c: Code, s: State)
    requires x.LoopStmt? && Sound(c) && At(c.ls, s.pos, StmtLines(x)) && s.Open() && !IfOn(s.ifs.top)
    requires FitsStmt(x, s.ifs.Depth(), s.loops.Depth(), c.n)
    ensures Steps(c, s, |StmtLines(x)|) == Some(s.(pos := s.pos + |StmtLines(x)|))
    decreases x, 0
  {
    LoopAt(c.ls, s.pos, x);
    LoopHead(c, s, x.until, x.c);
    var t := InDo(s, x.until, x.c, c.o);
    Skips(x.body, c, t);
    var u := t.(pos := t.pos + |Lines(x.body)|);
    DoneEnds(c, u);
    StepsAdd(c, t, |Lines(x.body)|, u, 1);
    StepsAdd(c, s, 2, t, |Lines(x.body)| + 1);
  }

  /** An if read while commands are disabled. */
  lemma {:induction false} SkipsIf(x: Stmt, c: Code, s: State)
    requires x.IfStmt? && Sound(c) && At(c.ls, s.pos, StmtLines(x)) && s.Open() && !s.On()
    requires FitsStmt(x, s.ifs.Depth(), s.loops.Depth(), c.n)
    ensures Steps(c, s, |StmtLines(x)|) == Some(s.(pos := s.pos + |StmtLines(x)|))
    decreases x, 1
  {
    IfAt(c.ls, s.pos, x);
    IfHead(c, s, x.inv, x.c);
    var t := InThen(s, x.inv, x.c, c.o);
    SkipsThen(x, c, t);
    StepsAdd(c, s, 2, t, |Lines(x.thn)| + |Tail(x.hasElse, x.els)|);
  }

  lemma {:induction false} SkipsThen(x: Stmt, c: Code, s: State)
    requires x.IfStmt? && Sound(c) && At(c.ls, s.pos, Lines(x.thn)) && At(c.ls, s.pos + |Lines(x.thn)|, Tail(x.hasElse, x.els))
    requires s.Open() && s.ifs.Push? && s.ifs.top.state == IThen && s.ifs.top.disabled
    requires Fits(x.thn, s.ifs.Depth(), s.loops.Depth(), c.n) && Fits(x.els, s.ifs.Depth(), s.loops.Depth(), c.n)
    ensures var len := |Lines(x.thn)| + |Tail(x.hasElse, x.els)|;
            Steps(c, s, len) == Some(s.(pos := s.pos + len, ifs := s.ifs.below))
    decreases x, 0
  {
    Skips(x.thn, c, s);
    var t := s.(pos := s.pos + |Lines(x.thn)|);
    SkipsTail(x.hasElse, x.els, c, t);
    StepsAdd(c, s, |Lines(x.thn)|, t, |Tail(x.hasElse, x.els)|);
  }

  /** From the end of the then part to past the fi, when the else part is not for running. */
  lemma {:induction false} SkipsTail(hasElse: bool, els: Block, c: Code, s: State)
    requires Sound(c) && At(c.ls, s.pos, Tail(hasElse, els)) && !Awaiting(s.loops.top)
    requires s.ifs.Push? && s.ifs.top.state == IThen && (s.ifs.top.disabled || !s.ifs.top.ifcond)
    requires Fits(els, s.ifs.Depth(), s.loops.Depth(), c.n)
    ensures Steps(c, s, |Tail(hasElse, els)|) == Some(s.(pos := s.pos + |Tail(hasElse, els)|, ifs := s.ifs.below))
    decreases els, 2
  {
    if hasElse {
      ElseAt(c.ls, s.pos, els);
      ElseTurns(c, s);
      var t := s.Next().(ifs := s.ifs.Set(s.ifs.top.(state := IElse)));
      Skips(els, c, t);
      var u := t.(pos := t.pos + |Lines(els)|);
      FiEnds(c, u);
      StepsAdd(c, t, |Lines(els)|, u, 1);
      StepsAdd(c, s, 1, t, |Lines(els)| + 1);
    } else {
      AtOne(c.ls, s.pos, FiLine);
      FiEnds(c, s);
    }
  }

  // ----- an enabled block -----

  predicate InLoop(s: State) {
    s.loops.top.state == LDo
  }

  predicate Off(s: State) {
    InLoop(s) && !s.loops.top.enable
  }

  /** Inside an if of the innermost loop. */
  predicate InIf(s: State) {
    InLoop(s) && s.loops.top.iendx < s.ifs.Depth()
  }

  /** Ready to run a block: nothing is awaited, the ifs around are enabled, and when the loop
      body is off no if has been opened in it. */
  ghost predicate Ready(s: State) {
    && s.Open() && IfOn(s.ifs.top) && (InLoop(s) <==> s.loops.Push?)
    && (InLoop(s) ==> s.loops.top.iendx <= s.ifs.Depth())
    && (Off(s) ==> !InIf(s))
  }

  /** The first lines of the loops on the stack. */
  function Heads(l: Stack<LoopEntry>): seq<nat> {
    match l
    case Base(_) => []
    case Push(e, below) => Heads(below) + [e.topoffs]
  }

  /** Both stacks have an entry for each if and loop around the line at hand. */
  ghost predicate Placed(ms: seq<Mark>, s: State) {
    s.pos < |ms| && ms[s.pos] == Mark(s.ifs.Depth(), Heads(s.loops))
  }

  /** Ready and in place in the text. */
  ghost predicate Stands(c: Code, ms: seq<Mark>, s: State) {
    Sound(c) && Marks(c.ls, ms) && Ready(s) && Placed(ms, s)
  }

  /** The state after len lines that came to the given end. */
  ghost function After(s: State, len: nat, r: Outcome): State {
    if !r.Ended? then s
    else s.(pos := s.pos + len, history := r.history, fail := r.fail,
            loops := if InLoop(s) then s.loops.Set(s.loops.top.(enable := !r.off)) else s.loops)
  }

  /** About to run a `break` inside an if of its loop, still in place. */
  ghost predicate Straying(c: Code, ms: seq<Mark>, s: State, r: Outcome)
    requires r.Lost?
  {
    && s.pos < |c.ls| && c.ls[s.pos].BreakLine? && s.history == r.history
    && Ready(s) && Placed(ms, s) && InIf(s) && !Off(s) && (r.nested <==> s.loops.Depth() > 1)
  }

  /** k steps lead to t if the tree ended. If it did not within its rounds, the machine has run the same
      commands after no fewer steps than there were rounds, and is still inside the script. If it
      lost its place, the machine is where it does. */
  ghost predicate Leads(c: Code, ms: seq<Mark>, s: State, t: State, r: Outcome, n: nat, k: nat) {
    match r
    case Ended(_, _, _) => Steps(c, s, k) == Some(t)
    case Timeout(h) =>
      k >= n && Steps(c, s, k).Some? && Steps(c, s, k).value.pos < |c.ls| && Steps(c, s, k).value.history == h
    case Lost(_, _) => Steps(c, s, k).Some? && Straying(c, ms, Steps(c, s, k).value, r)
  }

  lemma {:induction false} LeadsOn(c: Code, ms: seq<Mark>, s: State, j: nat, m: State, t: State, r: Outcome, n: nat, k: nat)
    requires Steps(c, s, j) == Some(m) && Leads(c, ms, m, t, r, n, k)
    ensures Leads(c, ms, s, t, r, n, j + k)
  {
    StepsAdd(c, s, j, m, k);
  }

  lemma {:induction false} CutNone<T>(s: Stack<T>)
    ensures s.Cut(s.Depth()) == s
  {
  }

  /** Only a `break` directly in a loop body turns it off, and nothing turns it on. */
  ghost predicate TurnsOff(s: State, r: Outcome) {
    r.Ended? ==> (Off(s) ==> r.off) && (r.off ==> InLoop(s) && !InIf(s))
  }

  lemma {:induction false} AfterStands(c: Code, ms: seq<Mark>, s: State, len: nat, r: Outcome)
    requires Stands(c, ms, s) && r.Ended? && TurnsOff(s, r)
    requires s.pos + len < |ms| && ms[s.pos + len] == ms[s.pos]
    ensures Stands(c, ms, After(s, len, r)) && Off(After(s, len, r)) == r.off
    ensures InIf(After(s, len, r)) == InIf(s) && After(s, len, r).loops.Depth() == s.loops.Depth()
    ensures After(s, len, r).ifs == s.ifs
  {
  }

  lemma {:induction false} AfterTwice(s: State, j: nat, r1: Outcome, k: nat, r: Outcome)
    requires r1.Ended? && r.Ended?
    ensures After(After(s, j, r1), k, r) == After(s, j + k, r)
  {
  }

  /** The machine runs a block as its flat meaning says. */
  lemma {:induction false} Runs(b: Block, c: Code, ms: seq<Mark>, s: State, n: nat) returns (k: nat)
    requires Stands(c, ms, s) && At(c.ls, s.pos, Lines(b)) && Fits(b, s.ifs.Depth(), s.loops.Depth(), c.n)
    ensures var r := FlatBlock(b, c.o, s.history, s.fail, Off(s), s.loops.Depth(), InIf(s), n);
            Leads(c, ms, s, After(s, |Lines(b)|, r), r, n, k) && TurnsOff(s, r)
    decreases n, b, 2
  {
    match b
    case Nil =>
      k := 0;
    case Cons(x, rest) =>
      AtSplit(c.ls, s.pos, StmtLines(x), Lines(rest));
      k := RunsBoth(x, rest, c, ms, s, n);
  }

  /** A statement and what comes after it. */
  lemma {:induction false} RunsBoth(x: Stmt, rest: Block, c: Code, ms: seq<Mark>, s: State, n: nat) returns (k: nat)
    requires Stands(c, ms, s) && At(c.ls, s.pos, StmtLines(x)) && At(c.ls, s.pos + |StmtLines(x)|, Lines(rest))
    requires FitsStmt(x, s.ifs.Depth(), s.loops.Depth(), c.n) && Fits(rest, s.ifs.Depth(), s.loops.Depth(), c.n)
    ensures var r1 := Flat(x, c.o, s.history, s.fail, Off(s), s.loops.Depth(), InIf(s), n);
            var r := if r1.Ended? then FlatBlock(rest, c.o, r1.history, r1.fail, r1.off, s.loops.Depth(), InIf(s), n) else r1;
            Leads(c, ms, s, After(s, |StmtLines(x)| + |Lines(rest)|, r), r, n, k) && TurnsOff(s, r)
    decreases n, Cons(x, rest), 1
  {
    k := RunsStmt(x, c, ms, s, n);
    var r1 := Flat(x, c.o, s.history, s.fail, Off(s), s.loops.Depth(), InIf(s), n);
    if r1.Ended? {
      var k2 := RunsRest(rest, x, c, ms, s, r1, n);
      var r := FlatBlock(rest, c.o, r1.history, r1.fail, r1.off, s.loops.Depth(), InIf(s), n);
      LeadsOn(c, ms, s, k, After(s, |StmtLines(x)|, r1), After(s, |StmtLines(x)| + |Lines(rest)|, r), r, n, k2);
      k := k + k2;
    }
  }

  /** The rest of a block, once its first statement has ended. */
  lemma {:induction false} RunsRest(rest: Block, x: Stmt, c: Code, ms: seq<Mark>, s: State, r1: Outcome, n: nat)
    returns (k: nat)
    requires Stands(c, ms, s) && At(c.ls, s.pos, StmtLines(x)) && At(c.ls, s.pos + |StmtLines(x)|, Lines(rest))
    requires Fits(rest, s.ifs.Depth(), s.loops.Depth(), c.n) && r1.Ended? && TurnsOff(s, r1)
    ensures var r := FlatBlock(rest, c.o, r1.history, r1.fail, r1.off, s.loops.Depth(), InIf(s), n);
            var len := |StmtLines(x)|;
            Leads(c, ms, After(s, len, r1), After(s, len + |Lines(rest)|, r), r, n, k) && TurnsOff(s, r)
    decreases n, rest, 3
  {
    var len := |StmtLines(x)|;
    var t := After(s, len, r1);
    StmtMark(c.ls, ms, s.pos, x);
    AfterStands(c, ms, s, len, r1);
    k := Runs(rest, c, ms, t, n);
    var r := FlatBlock(rest, c.o, t.history, t.fail, Off(t), t.loops.Depth(), InIf(t), n);
    if r.Ended? {
      OffStays(rest, c.o, t.history, t.fail, Off(t), t.loops.Depth(), InIf(t), n);
      AfterTwice(s, len, r1, |Lines(rest)|, r);
    }
  }

  lemma {:induction false} RunsStmt(x: Stmt, c: Code, ms: seq<Mark>, s: State, n: nat) returns (k: nat)
    requires Stands(c, ms, s) && At(c.ls, s.pos, StmtLines(x)) && FitsStmt(x, s.ifs.Depth(), s.loops.Depth(), c.n)
    ensures var r := Flat(x, c.o, s.history, s.fail, Off(s), s.loops.Depth(), InIf(s), n);
            Leads(c, ms, s, After(s, |StmtLines(x)|, r), r, n, k) && TurnsOff(s, r)
    decreases n, x, 3
  {
    match x
    case Simple(cmd) =>
      AtOne(c.ls, s.pos, CmdLine(cmd));
      OneStep(c, s, After(s, 1, Flat(x, c.o, s.history, s.fail, Off(s), s.loops.Depth(), InIf(s), n)));
      k := 1;
    case BreakStmt =>
      k := RunsBreak(c, ms, s, n);
    case IfStmt(_, _, _, _, _) =>
      if Off(s) {
        SkipsIf(x, c, s);
        k := |StmtLines(x)|;
      } else {
        k := RunsIf(x, c, ms, s, n);
      }
    case LoopStmt(_, _, _) =>
      k := RunsLoop(x, c, ms, s, n);
      var r := Flat(x, c.o, s.history, s.fail, Off(s), s.loops.Depth(), InIf(s), n);
      if r.Ended? {
        LoopExit(s, |StmtLines(x)|, r);
      }
  }

  lemma {:induction false} RunsBreak(c: Code, ms: seq<Mark>, s: State, n: nat) returns (k: nat)
    requires Stands(c, ms, s) && At(c.ls, s.pos, [BreakLine])
    ensures var r := Flat(BreakStmt, c.o, s.history, s.fail, Off(s), s.loops.Depth(), InIf(s), n);
            Leads(c, ms, s, After(s, 1, r), r, n, k) && TurnsOff(s, r)
  {
    AtOne(c.ls, s.pos, BreakLine);
    var r := Flat(BreakStmt, c.o, s.history, s.fail, Off(s), s.loops.Depth(), InIf(s), n);
    if r.Lost? {
      k := 0;
    } else {
      CutNone(s.ifs);
      OneStep(c, s, After(s, 1, r));
      k := 1;
    }
  }

  /** The state after a loop: whatever is around it is as before. */
  ghost function Passed(s: State, len: nat, r: Outcome): State {
    if !r.Ended? then s else s.(pos := s.pos + len, history := r.history, fail := r.fail)
  }

  lemma {:induction false} RunsLoop(x: Stmt, c: Code, ms: seq<Mark>, s: State, n: nat) returns (k: nat)
    requires x.LoopStmt? && Stands(c, ms, s) && At(c.ls, s.pos, StmtLines(x))
    requires FitsStmt(x, s.ifs.Depth(), s.loops.Depth(), c.n)
    ensures var r := Flat(x, c.o, s.history, s.fail, Off(s), s.loops.Depth(), InIf(s), n);
            Leads(c, ms, s, Passed(s, |StmtLines(x)|, r), r, n, k) && (r.Ended? ==> r.off == Off(s))
    decreases n, x, 2
  {
    if n == 0 {
      LoopAt(c.ls, s.pos, x);
      k := 0;
    } else {
      k := RunsRounds(x, c, ms, s, n);
    }
  }

  /** The first round, and the others. */
  lemma {:induction false} RunsRounds(x: Stmt, c: Code, ms: seq<Mark>, s: State, n: nat) returns (k: nat)
    requires x.LoopStmt? && Stands(c, ms, s) && At(c.ls, s.pos, StmtLines(x)) && n > 0
    requires FitsStmt(x, s.ifs.Depth(), s.loops.Depth(), c.n)
    ensures var h := s.history + [Event(x.c, s.fail)];
            var r1 := FlatBlock(x.body, c.o, h, false, c.o(h) != x.until, s.loops.Depth() + 1, false, n);
            var r := if !r1.Ended? then r1 else if r1.off then Ended(r1.history, r1.fail, Off(s))
                     else Flat(x, c.o, r1.history, r1.fail, Off(s), s.loops.Depth(), InIf(s), n - 1);
            Leads(c, ms, s, Passed(s, |StmtLines(x)|, r), r, n, k) && (r.Ended? ==> r.off == Off(s))
    decreases n, x, 1
  {
    k := RunsRound(x, c, ms, s, n);
    var h := s.history + [Event(x.c, s.fail)];
    var r1 := FlatBlock(x.body, c.o, h, false, c.o(h) != x.until, s.loops.Depth() + 1, false, n);
    if r1.Ended? && !r1.off {
      k := RunsAgain(x, c, ms, s, n, k, r1);
    }
  }

  /** The rounds after the first. */
  lemma {:induction false} RunsAgain(x: Stmt, c: Code, ms: seq<Mark>, s: State, n: nat, j: nat, r1: Outcome)
    returns (k: nat)
    requires x.LoopStmt? && Stands(c, ms, s) && At(c.ls, s.pos, StmtLines(x))
    requires FitsStmt(x, s.ifs.Depth(), s.loops.Depth(), c.n)
    requires n > 0 && j > 0 && r1.Ended? && Steps(c, s, j) == Some(s.(history := r1.history, fail := r1.fail))
    ensures var r := Flat(x, c.o, r1.history, r1.fail, Off(s), s.loops.Depth(), InIf(s), n - 1);
            Leads(c, ms, s, Passed(s, |StmtLines(x)|, r), r, n, k) && (r.Ended? ==> r.off == Off(s))
    decreases n, x, 0
  {
    var s' := s.(history := r1.history, fail := r1.fail);
    k := RunsLoop(x, c, ms, s', n - 1);
    var r := Flat(x, c.o, r1.history, r1.fail, Off(s), s.loops.Depth(), InIf(s), n - 1);
    LeadsOn(c, ms, s, j, s', Passed(s', |StmtLines(x)|, r), r, n - 1, k);
    k := j + k;
  }

  /** A loop leaves the enclosing body as it was, on or off. */
  lemma {:induction false} LoopExit(s: State, len: nat, r: Outcome)
    requires Ready(s) && r.Ended? && r.off == Off(s)
    ensures After(s, len, r) == Passed(s, len, r)
  {
  }

  lemma {:induction false} StartsLoop(x: Stmt, c: Code, ms: seq<Mark>, s: State)
    requires x.LoopStmt? && Stands(c, ms, s) && At(c.ls, s.pos, StmtLines(x))
    requires FitsStmt(x, s.ifs.Depth(), s.loops.Depth(), c.n)
    ensures var t := InDo(s, x.until, x.c, c.o);
            && Steps(c, s, 2) == Some(t) && Stands(c, ms, t) && InLoop(t) && !InIf(t) && !t.fail
            && At(c.ls, t.pos, Lines(x.body)) && t.loops.Depth() == s.loops.Depth() + 1
            && Fits(x.body, t.ifs.Depth(), t.loops.Depth(), c.n)
  {
    LoopAt(c.ls, s.pos, x);
    LoopMark(c.ls, ms, s.pos, x);
    LoopHead(c, s, x.until, x.c);
  }

  /** One round of a loop: the condition, the body, and back to the top or past the `done`. */
  lemma {:induction false} RunsRound(x: Stmt, c: Code, ms: seq<Mark>, s: State, n: nat) returns (k: nat)
    requires x.LoopStmt? && Stands(c, ms, s) && At(c.ls, s.pos, StmtLines(x))
    requires FitsStmt(x, s.ifs.Depth(), s.loops.Depth(), c.n)
    ensures var t := InDo(s, x.until, x.c, c.o);
            var r := FlatBlock(x.body, c.o, t.history, false, Off(t), t.loops.Depth(), false, n);
            var u := if !r.Ended? then s
                     else s.(history := r.history, fail := r.fail, pos := if r.off then s.pos + |StmtLines(x)| else s.pos);
            && t.loops.Depth() == s.loops.Depth() + 1 && t.history == s.history + [Event(x.c, s.fail)]
            && Off(t) == (c.o(t.history) != x.until) && k > 0 && Leads(c, ms, s, u, r, n, k)
    decreases n, x, 0
  {
    StartsLoop(x, c, ms, s);
    var t := InDo(s, x.until, x.c, c.o);
    k := Runs(x.body, c, ms, t, n);
    var r := FlatBlock(x.body, c.o, t.history, false, Off(t), t.loops.Depth(), false, n);
    var u := After(t, |Lines(x.body)|, r);
    LeadsOn(c, ms, s, 2, t, u, r, n, k);
    k := 2 + k;
    if r.Ended? {
      LoopAt(c.ls, s.pos, x);
      DoneEnds(c, u);
      StepsAdd(c, s, k, u, 1);
      k := k + 1;
    }
  }

  lemma {:induction false} RunsIf(x: Stmt, c: Code, ms: seq<Mark>, s: State, n: nat) returns (k: nat)
    requires x.IfStmt? && Stands(c, ms, s) && At(c.ls, s.pos, StmtLines(x)) && !Off(s)
    requires FitsStmt(x, s.ifs.Depth(), s.loops.Depth(), c.n)
    ensures var r := Flat(x, c.o, s.history, s.fail, false, s.loops.Depth(), InIf(s), n);
            Leads(c, ms, s, After(s, |StmtLines(x)|, r), r, n, k) && TurnsOff(s, r)
    decreases n, x, 2
  {
    var t := InThen(s, x.inv, x.c, c.o);
    StartsIf(x, c, ms, s);
    var len := |Lines(x.thn)| + |Tail(x.hasElse, x.els)|;
    var r := Flat(x, c.o, s.history, s.fail, false, s.loops.Depth(), InIf(s), n);
    if c.o(t.history) == x.inv {
      k := ThenRuns(x, c, ms, t, n);
    } else {
      k := ElseRuns(x, c, ms, t, n);
    }
    AfterFrom(s, t.(ifs := t.ifs.below), 2, len, r);
    LeadsOn(c, ms, s, 2, t, After(t.(ifs := t.ifs.below), len, r), r, n, k);
    k := 2 + k;
  }

  lemma {:induction false} AfterFrom(s: State, t: State, j: nat, k: nat, r: Outcome)
    requires t.pos == s.pos + j && t.ifs == s.ifs && t.loops == s.loops
    ensures r.Ended? ==> After(s, j + k, r) == After(t, k, r)
  {
  }

  /** At the first line of the then part of an enabled if. */
  ghost predicate AtThen(x: Stmt, c: Code, ms: seq<Mark>, s: State) {
    && x.IfStmt? && Sound(c) && Marks(c.ls, ms) && Placed(ms, s)
    && At(c.ls, s.pos, Lines(x.thn)) && At(c.ls, s.pos + |Lines(x.thn)|, Tail(x.hasElse, x.els))
    && s.ifs.Push? && s.ifs.top.state == IThen && !s.ifs.top.disabled
    && Ready(s.(ifs := s.ifs.below)) && !Off(s) && !s.fail
    && Fits(x.thn, s.ifs.Depth(), s.loops.Depth(), c.n)
    && Fits(x.els, s.ifs.Depth(), s.loops.Depth(), c.n)
  }

  lemma {:induction false} StartsIf(x: Stmt, c: Code, ms: seq<Mark>, s: State)
    requires x.IfStmt? && Stands(c, ms, s) && At(c.ls, s.pos, StmtLines(x)) && !Off(s)
    requires FitsStmt(x, s.ifs.Depth(), s.loops.Depth(), c.n)
    ensures Steps(c, s, 2) == Some(InThen(s, x.inv, x.c, c.o)) && AtThen(x, c, ms, InThen(s, x.inv, x.c, c.o))
    ensures |StmtLines(x)| == 2 + |Lines(x.thn)| + |Tail(x.hasElse, x.els)|
  {
    IfAt(c.ls, s.pos, x);
    IfMark(c.ls, ms, s.pos, x);
    IfHead(c, s, x.inv, x.c);
  }

  /** From there to past the fi, when the then part runs. */
  lemma {:induction false} ThenRuns(x: Stmt, c: Code, ms: seq<Mark>, s: State, n: nat) returns (k: nat)
    requires AtThen(x, c, ms, s) && !s.ifs.top.ifcond
    ensures var r := FlatBlock(x.thn, c.o, s.history, false, false, s.loops.Depth(), InLoop(s), n);
            var t := After(s.(ifs := s.ifs.below), |Lines(x.thn)| + |Tail(x.hasElse, x.els)|, r);
            Leads(c, ms, s, t, r, n, k) && (r.Ended? ==> !r.off)
    decreases n, x, 1
  {
    k := Runs(x.thn, c, ms, s, n);
    var r := FlatBlock(x.thn, c.o, s.history, false, false, s.loops.Depth(), InLoop(s), n);
    if r.Ended? {
      var u := After(s, |Lines(x.thn)|, r);
      SkipsTail(x.hasElse, x.els, c, u);
      StepsAdd(c, s, k, u, |Tail(x.hasElse, x.els)|);
      k := k + |Tail(x.hasElse, x.els)|;
    }
  }

  /** From there to past the fi, when the else part runs. */
  lemma {:induction false} ElseRuns(x: Stmt, c: Code, ms: seq<Mark>, s: State, n: nat) returns (k: nat)
    requires AtThen(x, c, ms, s) && s.ifs.top.ifcond
    ensures var r := if x.hasElse then FlatBlock(x.els, c.o, s.history, false, false, s.loops.Depth(), InLoop(s), n)
                     else Ended(s.history, false, false);
            var t := After(s.(ifs := s.ifs.below), |Lines(x.thn)| + |Tail(x.hasElse, x.els)|, r);
            Leads(c, ms, s, t, r, n, k) && (r.Ended? ==> !r.off)
    decreases n, x, 0
  {
    Skips(x.thn, c, s);
    BlockMark(c.ls, ms, s.pos, x.thn);
    var u := s.(pos := s.pos + |Lines(x.thn)|);
    var r := if x.hasElse then FlatBlock(x.els, c.o, s.history, false, false, s.loops.Depth(), InLoop(s), n)
             else Ended(s.history, false, false);
    k := TailRuns(x.hasElse, x.els, c, ms, u, n);
    var t := s.(ifs := s.ifs.below);
    AfterFrom(t, u.(ifs := u.ifs.below), |Lines(x.thn)|, |Tail(x.hasElse, x.els)|, r);
    LeadsOn(c, ms, s, |Lines(x.thn)|, u, After(t, |Lines(x.thn)| + |Tail(x.hasElse, x.els)|, r), r, n, k);
    k := |Lines(x.thn)| + k;
  }

  lemma {:induction false} TailRuns(hasElse: bool, els: Block, c: Code, ms: seq<Mark>, s: State, n: nat) returns (k: nat)
    requires Sound(c) && Marks(c.ls, ms) && Placed(ms, s) && At(c.ls, s.pos, Tail(hasElse, els))
    requires s.ifs.Push? && s.ifs.top.state == IThen && !s.ifs.top.disabled && s.ifs.top.ifcond
    requires Ready(s.(ifs := s.ifs.below)) && !Off(s) && !s.fail
    requires Fits(els, s.ifs.Depth(), s.loops.Depth(), c.n)
    ensures var r := if hasElse then FlatBlock(els, c.o, s.history, false, false, s.loops.Depth(), InLoop(s), n)
                     else Ended(s.history, false, false);
            var t := After(s.(ifs := s.ifs.below), |Tail(hasElse, els)|, r);
            Leads(c, ms, s, t, r, n, k) && (r.Ended? ==> !r.off)
    decreases n, els, 4
  {
    if hasElse {
      k := ElsePart(els, c, ms, s, n);
    } else {
      AtOne(c.ls, s.pos, FiLine);
      FiEnds(c, s);
      k := 1;
    }
  }

  lemma {:induction false} ElsePart(els: Block, c: Code, ms: seq<Mark>, s: State, n: nat) returns (k: nat)
    requires Sound(c) && Marks(c.ls, ms) && Placed(ms, s) && At(c.ls, s.pos, Tail(true, els))
    requires s.ifs.Push? && s.ifs.top.state == IThen && !s.ifs.top.disabled && s.ifs.top.ifcond
    requires Ready(s.(ifs := s.ifs.below)) && !Off(s) && !s.fail
    requires Fits(els, s.ifs.Depth(), s.loops.Depth(), c.n)
    ensures var r := FlatBlock(els, c.o, s.history, false, false, s.loops.Depth(), InLoop(s), n);
            var t := After(s.(ifs := s.ifs.below), |Tail(true, els)|, r);
            Leads(c, ms, s, t, r, n, k) && (r.Ended? ==> !r.off)
    decreases n, els, 3
  {
    StartsElse(els, c, ms, s);
    var t := InElse(s);
    k := Runs(els, c, ms, t, n);
    var r := FlatBlock(els, c.o, s.history, false, false, s.loops.Depth(), InLoop(s), n);
    var u := After(t, |Lines(els)|, r);
    LeadsOn(c, ms, s, 1, t, u, r, n, k);
    k := 1 + k;
    if r.Ended? {
      FiFinally(c, s, k, u);
      k := k + 1;
    }
  }

  lemma {:induction false} FiFinally(c: Code, s: State, k: nat, t: State)
    requires Sound(c) && Steps(c, s, k) == Some(t) && t.pos < |c.ls| && c.ls[t.pos] == FiLine && !Awaiting(t.loops.top)
    requires t.ifs.Push? && (t.ifs.top.state == IThen || t.ifs.top.state == IElse)
    ensures Steps(c, s, k + 1) == Some(t.Next().(ifs := t.ifs.below))
  {
    FiEnds(c, t);
    StepsAdd(c, s, k, t, 1);
  }

  /** The state after the line `else`. */
  ghost function InElse(s: State): State {
    s.Next().(ifs := s.ifs.Set(s.ifs.top.(state := IElse)))
  }

  lemma {:induction false} StartsElse(els: Block, c: Code, ms: seq<Mark>, s: State)
    requires Sound(c) && Marks(c.ls, ms) && Placed(ms, s) && At(c.ls, s.pos, Tail(true, els))
    requires s.ifs.Push? && s.ifs.top.state == IThen && !s.ifs.top.disabled && s.ifs.top.ifcond
    requires Ready(s.(ifs := s.ifs.below)) && !Off(s)
    ensures Steps(c, s, 1) == Some(InElse(s)) && Stands(c, ms, InElse(s)) && At(c.ls, s.pos + 1, Lines(els))
    ensures InIf(InElse(s)) == InLoop(s) && |Tail(true, els)| == 2 + |Lines(els)|
    ensures s.pos + 1 + |Lines(els)| < |c.ls| && c.ls[s.pos + 1 + |Lines(els)|] == FiLine
  {
    ElseAt(c.ls, s.pos, els);
    ElseMark(c.ls, ms, s.pos, els);
    ElseTurns(c, s);
  }
}
