/**
 What becomes of the machine once a `break` inside an if has taken the wrong entries off its if
 stack: it reads on with fewer ifs open than the text has, and cannot come to the end of the
 script without an error that `$?` shows.
 */
module NshStray {
  import opened Basics
  import opened NshMachine
  import opened NshStacks
  import opened NshTree
  import opened NshLayout
  import opened NshRefine

  /** No condition is awaited anywhere in the arrays, above the indices included, except right before
      the line that ends it. */
  ghost predicate Calm(ls: seq<Line>, p: Parser) {
    && Inv(p) && p.inScript
    && (forall i :: 0 <= i < |p.ie| && p.ie[i].state == IIf ==> i == p.iendx && p.pos < |ls| && ls[p.pos].ThenLine?)
    && (forall j :: 0 <= j < |p.lp| && Awaiting(p.lp[j]) ==> j == p.lpndx && p.pos < |ls| && ls[p.pos].DoLine?)
  }

  /** A failure shows: in `$?`, or in what some command from the l-th on saw there. */
  ghost predicate Tainted(p: Parser, l: nat) {
    p.fail || exists i :: l <= i < |p.history| && p.history[i].status
  }

  /** The entry of a loop that is off, or that was opened with too few ifs on the stack. */
  ghost predicate Astray(ms: seq<Mark>, e: LoopEntry) {
    (e.state == LDo && !e.enable) || (e.topoffs < |ms| && e.iendx < ms[e.topoffs].ifs)
  }

  /** Fewer ifs on the stack than in the text, now and whenever a loop is left or begun again. */
  ghost predicate Stray(ls: seq<Line>, ms: seq<Mark>, p: Parser)
    requires |ms| == |ls| + 1 && Indexed(p)
  {
    && p.pos <= |ls| && p.iendx < ms[p.pos].ifs && p.lpndx == |ms[p.pos].heads|
    && forall j :: 1 <= j <= p.lpndx ==> p.lp[j].topoffs == ms[p.pos].heads[j - 1] && Astray(ms, p.lp[j])
  }

  /** The text is that of a script. */
  ghost predicate Texts(ls: seq<Line>, ms: seq<Mark>) {
    Marks(ls, ms) && OrderedTo(ls, ms, 0, |ls|) && ms[|ls|].ifs == 0
  }

  /** What one line does to a calm machine, strayed or showing a failure already. */
  ghost predicate GoesOn(ls: seq<Line>, ms: seq<Mark>, p: Parser, q: Parser, l: nat)
    requires |ms| == |ls| + 1 && Indexed(p)
  {
    && Calm(ls, q) && p.history <= q.history && (Tainted(p, l) ==> Tainted(q, l))
    && (Stray(ls, ms, p) ==> q.fail || Stray(ls, ms, q))
  }

  /** Nothing is awaited anywhere. */
  ghost predicate Still(p: Parser) {
    && Inv(p) && p.inScript && (forall i :: 0 <= i < |p.ie| ==> p.ie[i].state != IIf)
    && forall j :: 0 <= j < |p.lp| ==> !Awaiting(p.lp[j])
  }

  /** Lines that failed to parse. */
  lemma {:induction false} IfErrShows(ls: seq<Line>, p: Parser, d: Diag)
    requires Still(p)
    ensures var q := SaveResult(IfErr(p, d).p, true); Calm(ls, q) && q.history == p.history && q.fail
  {
  }

  lemma {:induction false} LoopErrShows(ls: seq<Line>, p: Parser, d: Diag)
    requires Still(p)
    ensures var q := SaveResult(LoopErr(p, d).p, true); Calm(ls, q) && q.history == p.history && q.fail
  {
  }

  /** A line that was read, and did not run or only ran a command. */
  lemma {:induction false} Records(p: Parser, q: Parser, l: nat)
    requires l <= |p.history|
    requires p.history <= q.history && |q.history| <= |p.history| + 1
    requires if q.history == p.history then q.fail == p.fail else q.history[|p.history|].status == p.fail
    ensures Tainted(p, l) ==> Tainted(q, l)
  {
    if i :| l <= i < |p.history| && p.history[i].status {
      assert q.history[i].status;
    }
  }

  lemma {:induction false} CmdGoesOn(ls: seq<Line>, ms: seq<Mark>, p: Parser, c: Command, o: Oracle, l: nat)
    requires Texts(ls, ms) && Calm(ls, p) && l <= |p.history| && p.pos < |ls| && ls[p.pos] == CmdLine(c)
    ensures GoesOn(ls, ms, p, ParseCommand(ReadLine(p), c, o).p, l)
  {
    var q := ReadLine(p);
    assert Still(q);
    assert LoopStep(q, c) == Parsed(q, c, Fine) && ItefStep(q, c) == Parsed(q, c, Fine);
    NextMark(ls, ms, p.pos);
    Records(p, ParseCommand(q, c, o).p, l);
  }

  /** A `break` that runs leaves as many ifs as its loop began with. */
  lemma {:induction false} BreakLeaves(ls: seq<Line>, ms: seq<Mark>, p: Parser, q: Parser)
    requires Texts(ls, ms) && Calm(ls, p) && p.pos < |ls| && ls[p.pos] == BreakLine && CmdEnabled(p) && LoopTop(p).state == LDo
    requires q.pos == p.pos + 1 && q.iendx == LoopTop(p).iendx && q.ie == p.ie && q.inScript
    requires q.lpndx == p.lpndx && q.lp == p.lp[p.lpndx := LoopTop(p).(enable := false)]
    ensures Calm(ls, q) && (Stray(ls, ms, p) ==> Stray(ls, ms, q))
  {
    NextMark(ls, ms, p.pos);
    assert Ordered(ls, ms, p.pos);
  }

  /** What a `break` does to the machine. */
  ghost function Broken(p: Parser): Parser
    requires Indexed(p)
  {
    var q := ReadLine(p);
    if !CmdEnabled(p) then q
    else if LoopTop(p).state != LDo then q.(history := p.history + [Event([Break], p.fail)], fail := false)
    else q.(history := p.history + [Event([Break], p.fail)], fail := false, iendx := LoopTop(p).iendx,
            lp := p.lp[p.lpndx := LoopTop(p).(enable := false)])
  }

  lemma {:induction false} BreakParses(p: Parser, o: Oracle)
    requires Indexed(p) && !Awaiting(LoopTop(p)) && IfTop(p).state != IIf && p.ie[LoopTop(p).iendx].state != IIf
    ensures ParseCommand(ReadLine(p), [Break], o).p == Broken(p)
  {
    var q := ReadLine(p);
    assert LoopStep(q, [Break]) == Parsed(q, [Break], Fine) && ItefStep(q, [Break]) == Parsed(q, [Break], Fine);
  }

  lemma {:induction false} BreakGoesOn(ls: seq<Line>, ms: seq<Mark>, p: Parser, o: Oracle, l: nat)
    requires Texts(ls, ms) && Calm(ls, p) && l <= |p.history| && p.pos < |ls| && ls[p.pos] == BreakLine
    ensures GoesOn(ls, ms, p, ParseCommand(ReadLine(p), [Break], o).p, l)
  {
    BreakParses(p, o);
    var t := Broken(p);
    if CmdEnabled(p) && LoopTop(p).state == LDo {
      BreakLeaves(ls, ms, p, t);
    } else {
      NextMark(ls, ms, p.pos);
    }
    Records(p, t, l);
  }

  /** An if that opens. */
  lemma {:induction false} IfOpens(ls: seq<Line>, ms: seq<Mark>, p: Parser, e: IfEntry, q: Parser)
    requires Texts(ls, ms) && Calm(ls, p) && p.pos < |ls| && ls[p.pos].IfLine? && p.iendx + 1 < |p.ie|
    requires q.pos == p.pos + 1 && q.iendx == p.iendx + 1 && q.ie == p.ie[q.iendx := e] && q.inScript
    requires q.lpndx == p.lpndx && q.lp == p.lp
    ensures Calm(ls, q) && (Stray(ls, ms, p) ==> Stray(ls, ms, q))
  {
    NextMark(ls, ms, p.pos);
    assert Ordered(ls, ms, p.pos);
  }

  lemma {:induction false} IfGoesOn(ls: seq<Line>, ms: seq<Mark>, p: Parser, inv: bool, c: Command, o: Oracle, l: nat)
    requires Texts(ls, ms) && Calm(ls, p) && l <= |p.history| && p.pos < |ls| && ls[p.pos] == IfLine(inv, c)
    ensures GoesOn(ls, ms, p, ParseCommand(ReadLine(p), Words(IfLine(inv, c)), o).p, l)
  {
    var q, w := ReadLine(p), Words(IfLine(inv, c));
    assert Still(q);
    if q.iendx + 1 < |q.ie| {
      IfParses(inv, c, q);
      var t := ParseCommand(q, w, o).p;
      IfOpens(ls, ms, p, t.ie[t.iendx], t);
      Records(p, t, l);
    } else {
      IfTooDeep(inv, c, q);
      IfErrShows(ls, q, DeepNesting);
    }
  }

  lemma {:induction false} IfTooDeep(inv: bool, c: Command, q: Parser)
    requires Indexed(q) && !Awaiting(LoopTop(q)) && IfTop(q).state != IIf && q.iendx + 1 >= |q.ie|
    ensures var w := Words(IfLine(inv, c)); LoopStep(q, w) == Parsed(q, w, Fine) && ItefStep(q, w) == IfErr(q, DeepNesting)
  {
    var w := Words(IfLine(inv, c));
    assert w[1..] == if inv then [Bang] + c else c;
    assert inv ==> w[1..][1..] == c;
  }

  lemma {:induction false} ThenGoesOn(ls: seq<Line>, ms: seq<Mark>, p: Parser, o: Oracle, l: nat)
    requires Texts(ls, ms) && Calm(ls, p) && l <= |p.history| && p.pos < |ls| && ls[p.pos] == ThenLine
    ensures GoesOn(ls, ms, p, ParseCommand(ReadLine(p), [Then], o).p, l)
  {
    var q := ReadLine(p);
    assert LoopStep(q, [Then]) == Parsed(q, [Then], Fine);
    NextMark(ls, ms, p.pos);
    if IfTop(p).state == IIf {
      assert ItefStep(q, [Then]) == Parsed(SetIf(q, IfTop(p).(state := IThen)), [], Fine);
      Records(p, ParseCommand(q, [Then], o).p, l);
    } else {
      assert Still(q) && ItefStep(q, [Then]) == IfErr(q, BadContext);
      IfErrShows(ls, q, BadContext);
    }
  }

  lemma {:induction false} ElseGoesOn(ls: seq<Line>, ms: seq<Mark>, p: Parser, o: Oracle, l: nat)
    requires Texts(ls, ms) && Calm(ls, p) && l <= |p.history| && p.pos < |ls| && ls[p.pos] == ElseLine
    ensures GoesOn(ls, ms, p, ParseCommand(ReadLine(p), [Else], o).p, l)
  {
    var q := ReadLine(p);
    assert Still(q) && LoopStep(q, [Else]) == Parsed(q, [Else], Fine);
    NextMark(ls, ms, p.pos);
    if IfTop(p).state == IThen {
      assert ItefStep(q, [Else]) == Parsed(SetIf(q, IfTop(p).(state := IElse)), [], Fine);
      Records(p, ParseCommand(q, [Else], o).p, l);
    } else {
      assert ItefStep(q, [Else]) == IfErr(q, BadContext);
      IfErrShows(ls, q, BadContext);
    }
  }

  lemma {:induction false} FiGoesOn(ls: seq<Line>, ms: seq<Mark>, p: Parser, o: Oracle, l: nat)
    requires Texts(ls, ms) && Calm(ls, p) && l <= |p.history| && p.pos < |ls| && ls[p.pos] == FiLine
    ensures GoesOn(ls, ms, p, ParseCommand(ReadLine(p), [Fi], o).p, l)
  {
    var q := ReadLine(p);
    assert Still(q) && LoopStep(q, [Fi]) == Parsed(q, [Fi], Fine);
    NextMark(ls, ms, p.pos);
    if IfTop(p).state == IThen || IfTop(p).state == IElse {
      assert ItefStep(q, [Fi]) == Parsed(q.(iendx := p.iendx - 1), [], Fine);
      Records(p, ParseCommand(q, [Fi], o).p, l);
    } else {
      assert ItefStep(q, [Fi]) == IfErr(q, BadContext);
      IfErrShows(ls, q, BadContext);
    }
  }

  /** A loop that opens. */
  lemma {:induction false} LoopOpens(ls: seq<Line>, ms: seq<Mark>, p: Parser, e: LoopEntry, q: Parser)
    requires Texts(ls, ms) && Calm(ls, p) && p.pos < |ls| && ls[p.pos].LoopLine? && p.lpndx + 1 < |p.lp|
    requires q.pos == p.pos + 1 && q.lpndx == p.lpndx + 1 && q.lp == p.lp[q.lpndx := e] && q.inScript
    requires q.iendx == p.iendx && q.ie == p.ie && Awaiting(e) && e.iendx == p.iendx && e.topoffs == p.pos
    ensures Calm(ls, q) && (Stray(ls, ms, p) ==> Stray(ls, ms, q))
  {
    NextMark(ls, ms, p.pos);
    assert Ordered(ls, ms, p.pos);
  }

  lemma {:induction false} LoopGoesOn(ls: seq<Line>, ms: seq<Mark>, p: Parser, until: bool, c: Command, o: Oracle, l: nat)
    requires Texts(ls, ms) && Calm(ls, p) && l <= |p.history| && p.pos < |ls| && ls[p.pos] == LoopLine(until, c)
    ensures GoesOn(ls, ms, p, ParseCommand(ReadLine(p), Words(LoopLine(until, c)), o).p, l)
  {
    var q, w := ReadLine(p), Words(LoopLine(until, c));
    assert Still(q);
    if q.lpndx + 1 < |q.lp| {
      LoopParses(until, c, q);
      var t := ParseCommand(q, w, o).p;
      LoopOpens(ls, ms, p, t.lp[t.lpndx], t);
      Records(p, t, l);
    } else {
      assert w[1..] == c;
      assert LoopStep(q, w) == LoopErr(q, DeepNesting);
      LoopErrShows(ls, q, DeepNesting);
    }
  }

  lemma {:induction false} DoGoesOn(ls: seq<Line>, ms: seq<Mark>, p: Parser, o: Oracle, l: nat)
    requires Texts(ls, ms) && Calm(ls, p) && l <= |p.history| && p.pos < |ls| && ls[p.pos] == DoLine
    ensures GoesOn(ls, ms, p, ParseCommand(ReadLine(p), [Do], o).p, l)
  {
    var q := ReadLine(p);
    NextMark(ls, ms, p.pos);
    if Awaiting(LoopTop(p)) {
      assert LoopStep(q, [Do]) == Parsed(SetLoop(q, LoopTop(p).(state := LDo)), [], Fine);
      Records(p, ParseCommand(q, [Do], o).p, l);
    } else {
      assert Still(q) && LoopStep(q, [Do]) == LoopErr(q, BadContext);
      LoopErrShows(ls, q, BadContext);
    }
  }

  lemma {:induction false} DoneGoesOn(ls: seq<Line>, ms: seq<Mark>, p: Parser, o: Oracle, l: nat)
    requires Texts(ls, ms) && Calm(ls, p) && l <= |p.history| && p.pos < |ls| && ls[p.pos] == DoneLine
    ensures GoesOn(ls, ms, p, ParseCommand(ReadLine(p), [Done], o).p, l)
  {
    var q, top := ReadLine(p), LoopTop(p);
    assert Still(q);
    if top.state == LDo {
      var q' := SetLoop(q, top.(state := LNormal, enable := true)).(lpndx := p.lpndx - 1);
      assert LoopStep(q, [Done]) == Parsed(if top.enable then q'.(pos := top.topoffs, jump := true) else q', [], Fine);
      NextMark(ls, ms, p.pos);
      assert Ordered(ls, ms, p.pos);
      Records(p, ParseCommand(q, [Done], o).p, l);
    } else {
      assert LoopStep(q, [Done]) == LoopErr(q, BadContext);
      LoopErrShows(ls, q, BadContext);
    }
  }

  /** One line. */
  lemma {:induction false} LineGoesOn(ls: seq<Line>, ms: seq<Mark>, p: Parser, o: Oracle, l: nat)
    requires Texts(ls, ms) && Calm(ls, p) && l <= |p.history| && p.pos < |ls|
    ensures GoesOn(ls, ms, p, ParseCommand(ReadLine(p), Words(ls[p.pos]), o).p, l)
  {
    match ls[p.pos]
    case CmdLine(c) => CmdGoesOn(ls, ms, p, c, o, l);
    case BreakLine => BreakGoesOn(ls, ms, p, o, l);
    case IfLine(inv, c) => IfGoesOn(ls, ms, p, inv, c, o, l);
    case ThenLine => ThenGoesOn(ls, ms, p, o, l);
    case ElseLine => ElseGoesOn(ls, ms, p, o, l);
    case FiLine => FiGoesOn(ls, ms, p, o, l);
    case LoopLine(until, c) => LoopGoesOn(ls, ms, p, until, c, o, l);
    case DoLine => DoGoesOn(ls, ms, p, o, l);
    case DoneLine => DoneGoesOn(ls, ms, p, o, l);
  }

  // ----- runs -----

  /** The reader reads the lines. */
  ghost predicate ReadsLines(r: Reader, ls: seq<Line>) {
    Reads(r) && r.script == Script(ls)
  }

  lemma {:induction false} StepGoesOn(ls: seq<Line>, ms: seq<Mark>, r: Reader, p: Parser, l: nat)
    requires Texts(ls, ms) && ReadsLines(r, ls) && Calm(ls, p) && l <= |p.history| && p.pos < |ls|
    ensures GoesOn(ls, ms, p, r.step(p), l)
  {
    assert LooksAt(p);
    LineGoesOn(ls, ms, p, r.o, l);
  }

  /** Every run keeps the machine calm, and what it ran; and a machine that has strayed or shows a
      failure stays so. */
  lemma {:induction false} RunGoesOn(ls: seq<Line>, ms: seq<Mark>, r: Reader, p: Parser, k: nat, l: nat)
    requires Texts(ls, ms) && ReadsLines(r, ls) && Calm(ls, p) && l <= |p.history|
    ensures var q := Run(r, p, k);
            && Calm(ls, q) && p.history <= q.history
            && (Tainted(p, l) || Stray(ls, ms, p) ==> Tainted(q, l) || Stray(ls, ms, q))
    decreases k
  {
    if k > 0 && p.pos < |ls| {
      StepGoesOn(ls, ms, r, p, l);
      RunGoesOn(ls, ms, r, r.step(p), k - 1, l);
    }
  }

  /** A machine that has strayed shows a failure when it is at the end of the script. */
  lemma {:induction false} StrayShows(ls: seq<Line>, ms: seq<Mark>, r: Reader, p: Parser, k: nat, l: nat)
    requires Texts(ls, ms) && ReadsLines(r, ls) && Calm(ls, p) && l <= |p.history|
    requires Stray(ls, ms, p) && Run(r, p, k).pos >= |ls|
    ensures Tainted(Run(r, p, k), l)
  {
    RunGoesOn(ls, ms, r, p, k, l);
  }

  /** What the stacks say of the arrays, in a loop that stands in no other. */
  lemma {:induction false} OneLoop(p: Parser)
    requires Indexed(p) && View(p).loops.Depth() == 1
    ensures p.lpndx == 1 && View(p).loops.top == p.lp[1] && Heads(View(p).loops) == [p.lp[1].topoffs]
    ensures View(p).ifs.Depth() == p.iendx && View(p).ifs.top == IfTop(p)
  {
    assert View(p).loops == Push(p.lp[1], Base(p.lp[0]));
  }

  /** A `break` inside an if makes the machine stray, in a loop that stands in no other. */
  lemma {:induction false} BreakStrays(c: Code, ms: seq<Mark>, r: Reader, p: Parser, e: Outcome)
    requires Texts(c.ls, ms) && ReadsLines(r, c.ls) && Calm(c.ls, p)
    requires e.Lost? && !e.nested && Straying(c, ms, View(p), e)
    ensures Indexed(r.step(p)) && Stray(c.ls, ms, r.step(p))
  {
    assert LooksAt(p);
    OneLoop(p);
    BreakParses(p, r.o);
    NextMark(c.ls, ms, p.pos);
    LeavesIf(c.ls, ms, p, Broken(p));
  }

  lemma {:induction false} LeavesIf(ls: seq<Line>, ms: seq<Mark>, p: Parser, q: Parser)
    requires Indexed(p) && Indexed(q) && |ms| == |ls| + 1 && q.pos == p.pos + 1 <= |ls| && p.lpndx == 1 == q.lpndx
    requires ms[p.pos] == Mark(p.iendx, [p.lp[1].topoffs]) && ms[q.pos] == ms[p.pos] && p.lp[1].state == LDo
    requires q.iendx == p.lp[1].iendx < p.iendx && q.lp[1] == p.lp[1].(enable := false)
    ensures Stray(ls, ms, q)
  {
  }
}
