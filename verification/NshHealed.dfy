/**
 A script that is not clean and that the machine runs as its tree says all the same: a `break` inside
 an if makes it lose its place, and the `break` of the loop around that loop puts it back.
 */
module NshHealed {
  import opened Basics
  import opened NshMachine
  import opened NshStacks
  import opened NshTree
  import opened NshLayout
  import opened NshRefine
  import opened NshNesting
  import opened NshStray
  import opened NshScripts
  import opened NshExact

  const P: Command := [Text("p")]
  const A: Command := [Text("a")]
  const Q: Command := [Text("q")]
  const B: Command := [Text("b")]
  const C: Command := [Text("c")]

  /** if c; then; break; fi; break */
  function Inner(): Block {
    Cons(IfStmt(false, C, Cons(BreakStmt, Nil), false, Nil), Cons(BreakStmt, Nil))
  }

  /** if q; then; while b; do; ..; done; fi; break */
  function Outer(): Block {
    Cons(IfStmt(false, Q, Cons(LoopStmt(false, B, Inner()), Nil), false, Nil), Cons(BreakStmt, Nil))
  }

  /** if p; then; while a; do; ..; done; fi */
  function Healing(): Block {
    Cons(IfStmt(false, P, Cons(LoopStmt(false, A, Outer()), Nil), false, Nil), Nil)
  }

  function Told(h: seq<Event>, c: seq<Word>): seq<Event> {
    h + [Event(c, false)]
  }

  // ----- the two meanings -----

  /** The inner loop: the meanings differ only when both its commands succeed. */
  lemma {:induction false} InnerRuns(o: Oracle, h: seq<Event>, n: nat)
    ensures var s := LoopStmt(false, B, Inner());
            var f, e := Flat(s, o, h, false, false, 1, true, n), Exec(s, o, h, false, true, n);
            if n > 0 && !o(Told(h, B)) && !o(Told(Told(h, B), C))
            then f.Lost? && e == Ended(Told(Told(Told(h, B), C), [Break]), false, false)
            else f == e && (e.Ended? ==> !e.off)
  {
    var s := LoopStmt(false, B, Inner());
    var h' := Told(h, B);
    if n > 0 && o(h') {
      OffIsIdle(Inner(), o, h', false, 2, false, n);
    } else if n > 0 {
      InnerBody(o, h', n);
    }
  }

  lemma {:induction false} InnerBody(o: Oracle, h: seq<Event>, n: nat)
    ensures var f, e := FlatBlock(Inner(), o, h, false, false, 2, false, n), ExecBlock(Inner(), o, h, false, true, n);
            && e == Ended(Told(Told(h, C), [Break]), false, true)
            && if o(Told(h, C)) then f == e else f.Lost?
  {
    var h' := Told(h, C);
    var b := Cons(BreakStmt, Nil);
    assert ExecBlock(b, o, h', false, true, n) == Ended(Told(h', [Break]), false, true);
    if o(h') {
      assert FlatBlock(b, o, h', false, false, 2, false, n) == Ended(Told(h', [Break]), false, true);
    } else {
      assert FlatBlock(b, o, h', false, false, 2, true, n).Lost?;
    }
  }

  lemma {:induction false} OuterBody(o: Oracle, h: seq<Event>, n: nat)
    ensures var f, e := FlatBlock(Outer(), o, h, false, false, 1, false, n), ExecBlock(Outer(), o, h, false, true, n);
            var h' := Told(Told(h, Q), B);
            if n > 0 && !o(Told(h, Q)) && !o(h') && !o(Told(h', C))
            then f.Lost? && e == Ended(Told(Told(Told(h', C), [Break]), [Break]), false, true)
            else f == e && (e.Ended? ==> e.off)
  {
    var h' := Told(h, Q);
    var x := LoopStmt(false, B, Inner());
    var b := Cons(x, Nil);
    InnerRuns(o, h', n);
    var f, e := Flat(x, o, h', false, false, 1, true, n), Exec(x, o, h', false, true, n);
    assert ExecBlock(b, o, h', false, true, n) == e;
    assert FlatBlock(b, o, h', false, false, 1, true, n) == f;
    var s, rest := Outer().s, Outer().rest;
    var e' := if o(h') then Ended(h', false, false) else e;
    assert Exec(s, o, h, false, true, n) == e';
    assert Flat(s, o, h, false, false, 1, false, n) == if o(h') then e' else f;
    if e'.Ended? {
      var h'' := e'.history + [Event([Break], e'.fail)];
      assert ExecBlock(rest, o, e'.history, e'.fail, true, n) == Ended(h'', false, true);
      assert FlatBlock(rest, o, e'.history, e'.fail, false, 1, false, n) == Ended(h'', false, true);
    }
  }

  lemma {:induction false} OuterRuns(o: Oracle, h: seq<Event>, n: nat)
    ensures var s := LoopStmt(false, A, Outer());
            var f, e := Flat(s, o, h, false, false, 0, false, n), Exec(s, o, h, false, false, n);
            var h' := Told(Told(Told(h, A), Q), B);
            if n > 0 && !o(Told(h, A)) && !o(Told(Told(h, A), Q)) && !o(h') && !o(Told(h', C))
            then f.Lost? && e == Ended(Told(Told(Told(h', C), [Break]), [Break]), false, false)
            else f == e && (e.Ended? ==> !e.off)
  {
    if n > 0 && o(Told(h, A)) {
      OffIsIdle(Outer(), o, Told(h, A), false, 1, false, n);
    } else if n > 0 {
      OuterBody(o, Told(h, A), n);
    }
  }

  /** Every command on the way to the `break` succeeds. */
  ghost predicate AllSucceed(o: Oracle, h: seq<Event>) {
    var h' := Told(Told(Told(h, A), Q), B);
    !o(h) && !o(Told(h, A)) && !o(Told(Told(h, A), Q)) && !o(h') && !o(Told(h', C))
  }

  /** The commands that then run, after p. */
  function Healed(h: seq<Event>): seq<Event> {
    Told(Told(Told(Told(Told(Told(h, A), Q), B), C), [Break]), [Break])
  }

  lemma {:induction false} HealingRuns(o: Oracle, h: seq<Event>, fail: bool, n: nat)
    ensures var f, e := FlatBlock(Healing(), o, h, fail, false, 0, false, n), ExecBlock(Healing(), o, h, fail, false, n);
            var h' := h + [Event(P, fail)];
            if n > 0 && AllSucceed(o, h')
            then f.Lost? && e == Ended(Healed(h'), false, false)
            else f == e && (e.Ended? ==> !e.off)
  {
    var h' := h + [Event(P, fail)];
    var x := LoopStmt(false, A, Outer());
    OuterRuns(o, h', n);
    var f, e := Flat(x, o, h', false, false, 0, false, n), Exec(x, o, h', false, false, n);
    assert ExecBlock(Cons(x, Nil), o, h', false, false, n) == e;
    assert FlatBlock(Cons(x, Nil), o, h', false, false, 0, false, n) == f;
    var s := Healing().s;
    assert Exec(s, o, h, fail, false, n) == if o(h') then Ended(h', false, false) else e;
    assert Flat(s, o, h, fail, false, 0, false, n) == if o(h') then Ended(h', false, false) else f;
  }

  // ----- the machine -----

  const InnerLines: seq<Line> :=
    [LoopLine(false, B), DoLine, IfLine(false, C), ThenLine, BreakLine, FiLine, BreakLine, DoneLine]

  lemma {:induction false} InnerLoopLines()
    ensures StmtLines(LoopStmt(false, B, Inner())) == InnerLines
  {
    assert Lines(Cons(BreakStmt, Nil)) == [BreakLine] && Tail(false, Nil) == [FiLine];
    assert StmtLines(Inner().s) == [IfLine(false, C), ThenLine, BreakLine, FiLine];
    assert Lines(Inner()) == [IfLine(false, C), ThenLine, BreakLine, FiLine, BreakLine];
  }

  const OuterLines: seq<Line> :=
    [LoopLine(false, A), DoLine, IfLine(false, Q), ThenLine] + InnerLines + [FiLine, BreakLine, DoneLine]

  lemma {:induction false} OuterLoopLines()
    ensures StmtLines(LoopStmt(false, A, Outer())) == OuterLines
  {
    InnerLoopLines();
    assert Lines(Cons(BreakStmt, Nil)) == [BreakLine] && Tail(false, Nil) == [FiLine];
    assert Lines(Cons(LoopStmt(false, B, Inner()), Nil)) == InnerLines;
    assert StmtLines(Outer().s) == [IfLine(false, Q), ThenLine] + InnerLines + [FiLine];
    assert Lines(Outer()) == [IfLine(false, Q), ThenLine] + InnerLines + [FiLine, BreakLine];
  }

  lemma {:induction false} HealingLines()
    ensures var ls := Lines(Healing());
            && |ls| == 18 && ls[0] == IfLine(false, P) && ls[1] == ThenLine && ls[2] == LoopLine(false, A) && ls[3] == DoLine
            && ls[4] == IfLine(false, Q) && ls[5] == ThenLine && ls[6] == LoopLine(false, B) && ls[7] == DoLine
            && ls[8] == IfLine(false, C) && ls[9] == ThenLine && ls[10] == BreakLine && ls[11] == FiLine
            && ls[12] == BreakLine && ls[13] == DoneLine
            && ls[14] == FiLine && ls[15] == BreakLine && ls[16] == DoneLine && ls[17] == FiLine
  {
    OuterLoopLines();
    assert Tail(false, Nil) == [FiLine];
    assert Lines(Cons(LoopStmt(false, A, Outer()), Nil)) == OuterLines;
    assert StmtLines(Healing().s) == [IfLine(false, P), ThenLine] + OuterLines + [FiLine];
  }

  const Open: IfEntry := IfEntry(IThen, false, false, false)

  /** Up to the body of the outer loop. */
  lemma {:induction false} UpToOuter(c: Code, s: State) returns (t: State)
    requires Sound(c) && c.ls == Lines(Healing()) && c.n >= 4 && AllSucceed(c.o, s.history + [Event(P, s.fail)])
    requires s.pos == 0 && s.ifs == Base(ResetIf) && s.loops.Base? && s.loops.top.state == LNormal
    ensures Steps(c, s, 4) == Some(t) && t.pos == 4 && t.ifs == Push(Open, s.ifs) && !t.fail
    ensures t.loops == Push(LoopEntry(LDo, true, 1, 2), s.loops) && t.history == Told(s.history + [Event(P, s.fail)], A)
  {
    HealingLines();
    var s2 := InThen(s, false, P, c.o);
    IfHead(c, s, false, P);
    t := InDo(s2, false, A, c.o);
    LoopHead(c, s2, false, A);
    StepsAdd(c, s, 2, s2, 2);
  }

  /** Up to the inner loop. */
  lemma {:induction false} UpToInner(c: Code, s: State) returns (t: State)
    requires Sound(c) && c.ls == Lines(Healing()) && c.n >= 4 && AllSucceed(c.o, s.history + [Event(P, s.fail)])
    requires s.pos == 0 && s.ifs == Base(ResetIf) && s.loops.Base? && s.loops.top.state == LNormal
    ensures Steps(c, s, 6) == Some(t) && t.pos == 6 && t.ifs == Push(Open, Push(Open, s.ifs)) && !t.fail
    ensures t.loops == Push(LoopEntry(LDo, true, 1, 2), s.loops)
    ensures t.history == Told(Told(s.history + [Event(P, s.fail)], A), Q)
  {
    HealingLines();
    var s4 := UpToOuter(c, s);
    t := InThen(s4, false, Q, c.o);
    IfHead(c, s4, false, Q);
    StepsAdd(c, s, 4, s4, 2);
  }

  /** From there up to the `break` inside the if. */
  lemma {:induction false} UpToBreak(c: Code, s: State) returns (t: State)
    requires Sound(c) && c.ls == Lines(Healing()) && c.n >= 4 && !c.o(Told(s.history, B)) && !c.o(Told(Told(s.history, B), C))
    requires s.pos == 6 && s.ifs == Push(Open, Push(Open, Base(ResetIf))) && !s.fail && s.loops.Depth() == 1
    requires s.loops.top.state == LDo && s.loops.top.enable
    ensures Steps(c, s, 4) == Some(t) && t.pos == 10 && t.ifs == Push(Open, s.ifs) && !t.fail
    ensures t.loops == Push(LoopEntry(LDo, true, 2, 6), s.loops) && t.history == Told(Told(s.history, B), C)
  {
    HealingLines();
    var s2 := InDo(s, false, B, c.o);
    LoopHead(c, s, false, B);
    t := InThen(s2, false, C, c.o);
    IfHead(c, s2, false, C);
    StepsAdd(c, s, 2, s2, 2);
  }

  /** From it to the end of the inner loop: one fi too many has closed an if. */
  lemma {:induction false} PastInner(c: Code, s: State, outer: Stack<LoopEntry>) returns (t: State)
    requires Sound(c) && c.ls == Lines(Healing()) && s.pos == 10 && !s.fail
    requires s.ifs == Push(Open, Push(Open, Push(Open, Base(ResetIf)))) && s.loops == Push(LoopEntry(LDo, true, 2, 6), outer)
    ensures Steps(c, s, 4) == Some(t)
    ensures t == s.Ran([Break]).(pos := 14, ifs := Push(Open, Base(ResetIf)), loops := outer)
  {
    HealingLines();
    var off := LoopEntry(LDo, false, 2, 6);
    var two := Push(Open, Push(Open, Base(ResetIf)));
    assert s.ifs.Cut(2) == two;
    var s1 := s.Ran([Break]).(pos := 11, ifs := two, loops := Push(off, outer));
    OneStep(c, s, s1);
    var s2 := s1.(pos := 12, ifs := Push(Open, Base(ResetIf)));
    FiEnds(c, s1);
    StepsAdd(c, s, 1, s1, 1);
    OneStep(c, s2, s2.Next());
    StepsAdd(c, s, 2, s2, 1);
    t := s2.(pos := 14, loops := outer);
    DoneEnds(c, s2.Next());
    StepsAdd(c, s, 3, s2.Next(), 1);
  }

  // The stack machine has no step from there: the `break` of the outer loop goes to an if entry that is
  // off the stack. In the array it is still there.

  lemma {:induction false} FiReads(ls: seq<Line>, r: Reader, p: Parser)
    requires ReadsLines(r, ls) && Indexed(p) && p.pos < |ls| && ls[p.pos] == FiLine
    requires !Awaiting(LoopTop(p)) && IfTop(p).state == IThen && p.iendx > 0
    ensures Run(r, p, 1) == ReadLine(p).(iendx := p.iendx - 1)
  {
    assert LooksAt(p);
    FiParses(ReadLine(p), r.o);
    assert Run(r, r.step(p), 0) == r.step(p);
  }

  lemma {:induction false} BreakReads(ls: seq<Line>, r: Reader, p: Parser)
    requires ReadsLines(r, ls) && Indexed(p) && p.pos < |ls| && ls[p.pos] == BreakLine
    requires !Awaiting(LoopTop(p)) && IfTop(p).state != IIf && p.ie[LoopTop(p).iendx].state != IIf
    ensures Run(r, p, 1) == Broken(p)
  {
    assert LooksAt(p);
    BreakParses(p, r.o);
    assert Run(r, r.step(p), 0) == r.step(p);
  }

  lemma {:induction false} DoneReads(ls: seq<Line>, r: Reader, p: Parser)
    requires ReadsLines(r, ls) && Indexed(p) && p.pos < |ls| && ls[p.pos] == DoneLine
    requires LoopTop(p).state == LDo && !LoopTop(p).enable && p.lpndx > 0
    ensures Run(r, p, 1)
         == ReadLine(p).(lp := p.lp[p.lpndx := LoopTop(p).(state := LNormal, enable := true)], lpndx := p.lpndx - 1)
  {
    var q, top := ReadLine(p), LoopTop(p);
    assert LooksAt(p);
    assert LoopStep(q, [Done])
        == Parsed(SetLoop(q, top.(state := LNormal, enable := true)).(lpndx := p.lpndx - 1), [], Fine);
    assert Run(r, r.step(p), 0) == r.step(p);
  }

  /** From there on: the `break` of the outer loop opens the if again. */
  lemma {:induction false} Reopens(r: Reader, p: Parser)
    requires ReadsLines(r, Lines(Healing())) && Indexed(p) && p.pos == 14 && !p.fail && p.iendx == 1 == p.lpndx
    requires p.ie[0] == ResetIf && p.ie[1] == Open && p.lp[1] == LoopEntry(LDo, true, 1, 2)
    ensures Run(r, p, 2) == Broken(ReadLine(p).(iendx := 0))
  {
    HealingLines();
    FiReads(Lines(Healing()), r, p);
    BreakReads(Lines(Healing()), r, ReadLine(p).(iendx := 0));
    RunAdd(r, p, 1, 1);
  }

  /** And to the end. */
  lemma {:induction false} Closes(r: Reader, p: Parser)
    requires ReadsLines(r, Lines(Healing())) && Indexed(p) && p.pos == 16 && !p.fail && p.iendx == 1 == p.lpndx
    requires p.ie[0] == ResetIf && p.ie[1] == Open && p.lp[0].state == LNormal && p.lp[1] == LoopEntry(LDo, false, 1, 2)
    ensures var q := Run(r, p, 2);
            && Indexed(q) && Idle(q) && q.lp[0] == p.lp[0]
            && Finished(Healing(), q) && q.history == p.history && !q.fail
  {
    HealingLines();
    var q := ReadLine(p).(lp := p.lp[1 := LoopEntry(LNormal, true, 1, 2)], lpndx := 0);
    DoneReads(Lines(Healing()), r, p);
    FiReads(Lines(Healing()), r, q);
    RunAdd(r, p, 1, 1);
  }

  lemma {:induction false} PutBack(r: Reader, p: Parser)
    requires ReadsLines(r, Lines(Healing())) && Indexed(p) && p.pos == 14 && !p.fail && p.iendx == 1 == p.lpndx
    requires p.ie[0] == ResetIf && p.ie[1] == Open
    requires p.lp[0].state == LNormal && p.lp[1] == LoopEntry(LDo, true, 1, 2)
    ensures var q := Run(r, p, 4);
            && Indexed(q) && Idle(q) && q.lp[0] == p.lp[0]
            && Finished(Healing(), q) && q.history == Told(p.history, [Break]) && !q.fail
  {
    Reopens(r, p);
    Closes(r, Broken(ReadLine(p).(iendx := 0)));
    RunAdd(r, p, 2, 2);
  }

  // ----- the script behaves -----

  /** Where the stack machine is before its last step, and with it the array machine. */
  lemma {:induction false} UpToLast(c: Code, s: State) returns (t: State)
    requires Sound(c) && c.ls == Lines(Healing()) && c.n >= 4 && AllSucceed(c.o, s.history + [Event(P, s.fail)])
    requires s.pos == 0 && s.ifs == Base(ResetIf) && s.loops.Base? && s.loops.top.state == LNormal
    ensures Steps(c, s, 14) == Some(t) && t.pos == 14 && t.ifs == Push(Open, s.ifs) && !t.fail
    ensures t.loops == Push(LoopEntry(LDo, true, 1, 2), s.loops)
    ensures Told(t.history, [Break]) == Healed(s.history + [Event(P, s.fail)])
  {
    var s6 := UpToInner(c, s);
    var s10 := UpToBreak(c, s6);
    StepsAdd(c, s, 6, s6, 4);
    t := PastInner(c, s10, s6.loops);
    StepsAdd(c, s, 10, s10, 4);
  }

  lemma {:induction false} Last(p: Parser, s: State, e: LoopEntry)
    requires Indexed(p) && View(p) == s && s.ifs == Push(Open, Base(ResetIf)) && s.loops == Push(LoopEntry(LDo, true, 1, 2), Base(e))
    ensures p.iendx == 1 == p.lpndx && p.ie[0] == ResetIf && p.ie[1] == Open
    ensures p.lp[0] == e && p.lp[1] == LoopEntry(LDo, true, 1, 2)
  {
    assert Above(p.ie, p.iendx).Depth() == p.iendx && Above(p.lp, p.lpndx).Depth() == p.lpndx;
    assert Above(p.ie, 0) == Base(p.ie[0]) && Above(p.lp, 0) == Base(p.lp[0]);
  }

  lemma {:induction false} HealingHalts(r: Reader, p: Parser)
    requires Starts(Healing(), r, p) && |p.ie| >= 4 && AllSucceed(r.o, p.history + [Event(P, p.fail)])
    ensures Halts(Healing(), r, p, Healed(p.history + [Event(P, p.fail)]), false)
  {
    var b := Healing();
    var s := UpToLast(CodeOf(Lines(b), r.o, |p.ie|), View(p));
    ScriptSteps(b, r, p, 14);
    var q := Run(r, p, 14);
    Last(q, s, p.lp[0]);
    PutBack(r, q);
    RunAdd(r, p, 14, 4);
    Halted(r, p, 18);
  }

  lemma {:induction false} Halted(r: Reader, p: Parser, k: nat)
    requires AtStart(p) && Finished(Healing(), Run(r, p, k))
    requires Indexed(Run(r, p, k)) && Idle(Run(r, p, k)) && Run(r, p, k).lp[0] == p.lp[0]
    ensures Halts(Healing(), r, p, Run(r, p, k).history, Run(r, p, k).fail)
  {
    var q := Run(r, p, k);
    assert EndsAs(q, Healing(), Ended(q.history, q.fail, false), p);
  }

  /** The script is not clean, and behaves in every session that it fits. */
  lemma {:induction false} HealingBehaves(n: nat)
    requires n >= 4
    ensures !Clean(Healing(), false, false) && Fits(Healing(), 0, 0, n) && Behaves(Healing(), n)
  {
    var b := Healing();
    NotClean();
    HealingFits(n);
    forall r: Reader, p: Parser, m: nat {:trigger TreeRun(b, r, p, m)}
      | Starts(b, r, p) && |p.ie| == n && TreeRun(b, r, p, m).Ended?
      ensures Halts(b, r, p, TreeRun(b, r, p, m).history, TreeRun(b, r, p, m).fail)
    {
      HealingRuns(r.o, p.history, p.fail, m);
      if m > 0 && AllSucceed(r.o, p.history + [Event(P, p.fail)]) {
        HealingHalts(r, p);
      } else {
        var k := MachineEnds(b, r, p, m);
        var e := TreeRun(b, r, p, m);
        assert EndsAs(Run(r, p, k), b, Ended(e.history, e.fail, false), p);
      }
    }
  }

  lemma {:induction false} NotClean()
    ensures !Clean(Healing(), false, false)
  {
    assert !Clean(Cons(BreakStmt, Nil), true, true);
    assert !Clean(Inner(), true, false);
    assert !Clean(Cons(LoopStmt(false, B, Inner()), Nil), true, true);
    assert !Clean(Outer(), true, false);
    assert !Clean(Cons(LoopStmt(false, A, Outer()), Nil), false, false);
  }

  lemma {:induction false} HealingFits(n: nat)
    requires n >= 4
    ensures Fits(Healing(), 0, 0, n)
  {
    assert forall d: nat, ld: nat {:trigger Fits(Nil, d, ld, n)} :: Fits(Nil, d, ld, n);
    assert Fits(Cons(BreakStmt, Nil), 3, 2, n) && Fits(Cons(BreakStmt, Nil), 2, 2, n) && Fits(Cons(BreakStmt, Nil), 1, 1, n);
    assert Fits(Inner(), 2, 2, n);
    assert Fits(Cons(LoopStmt(false, B, Inner()), Nil), 2, 1, n);
    assert Fits(Outer(), 1, 1, n);
    assert Fits(Cons(LoopStmt(false, A, Outer()), Nil), 1, 0, n);
  }
}
