/**
 The script machine with plain stacks in place of arrays and indices. It handles one script
 line in each of the shapes a well-formed script has, and gives up (None) on the errors that
 such scripts never reach. What the entries above the indices hold plays no part in it.
 */
module NshStacks {
  import opened Basics
  import opened NshMachine

  /** A stack that is never empty. */
  datatype Stack<T> = Base(top: T) | Push(top: T, below: Stack<T>) {
    function Depth(): nat {
      match this
      case Base(_) => 0
      case Push(_, s) => 1 + s.Depth()
    }

    /** The stack cut down to the given depth. */
    function Cut(d: nat): (s: Stack<T>)
      ensures s.Depth() == if d <= Depth() then d else Depth()
      ensures d >= Depth() ==> s == this
    {
      if Depth() <= d || Base? then this else below.Cut(d)
    }

    function Set(e: T): Stack<T> {
      this.(top := e)
    }

    function Bottom(): T {
      match this
      case Base(e) => e
      case Push(_, s) => s.Bottom()
    }
  }

  /** A command: its first word is no keyword, not `break` and not empty. */
  type Command = c: seq<Word> | IsCommand(c) witness [Text("x")]

  predicate IsCommand(c: seq<Word>) {
    c != [] && c[0].Text? && c[0].s != ""
  }

  datatype Line =
    | CmdLine(c: Command) | BreakLine
    | IfLine(inv: bool, c: Command) | ThenLine | ElseLine | FiLine
    | LoopLine(until: bool, c: Command) | DoLine | DoneLine

  /** The words of a line. */
  function Words(l: Line): seq<Word> {
    match l
    case CmdLine(c) => c
    case BreakLine => [Break]
    case IfLine(inv, c) => if inv then [If, Bang] + c else [If] + c
    case ThenLine => [Then]
    case ElseLine => [Else]
    case FiLine => [Fi]
    case LoopLine(until, c) => if until then [Until] + c else [While] + c
    case DoLine => [Do]
    case DoneLine => [Done]
  }

  function Script(ls: seq<Line>): seq<seq<Word>> {
    seq(|ls|, i requires 0 <= i < |ls| => Words(ls[i]))
  }

  datatype State = State(pos: nat, history: seq<Event>, fail: bool, ifs: Stack<IfEntry>, loops: Stack<LoopEntry>) {
    predicate On() {
      LoopOn(loops.top) && IfOn(ifs.top)
    }

    /** No condition is being awaited. */
    predicate Open() {
      !Awaiting(loops.top) && ifs.top.state != IIf
    }

    function Next(): State {
      this.(pos := pos + 1)
    }

    function Ran(words: seq<Word>): State {
      this.(history := history + [Event(words, fail)])
    }
  }

  /** One line, for a nesting limit of n stack entries. */
  function Step(l: Line, o: Oracle, n: nat, s: State): Option<State> {
    var t := s.Next();
    match l
    case CmdLine(c) =>
      if !s.Open() then None
      else if !s.On() then Some(t)
      else Some(t.Ran(c).(fail := o(t.Ran(c).history)))
    case BreakLine =>
      if !s.Open() then None
      else if !s.On() then Some(t)
      else if s.loops.top.state != LDo then Some(t.Ran([Break]).(fail := false))
      else if s.loops.top.iendx > s.ifs.Depth() || s.ifs.Cut(s.loops.top.iendx).top.state == IIf then None
      else Some(t.Ran([Break]).(fail := false, ifs := s.ifs.Cut(s.loops.top.iendx),
                                loops := s.loops.Set(s.loops.top.(enable := false))))
    case IfLine(inv, c) =>
      if !s.Open() || s.ifs.Depth() + 1 >= n then None
      else if !s.On() then Some(t.(ifs := Push(IfEntry(IIf, true, false, inv), s.ifs)))
      else
        var r := o(t.Ran(c).history);
        Some(t.Ran(c).(fail := false, ifs := Push(IfEntry(IIf, false, inv != r, inv), s.ifs)))
    case ThenLine =>
      if Awaiting(s.loops.top) || s.ifs.top.state != IIf then None
      else Some(t.(ifs := s.ifs.Set(s.ifs.top.(state := IThen))))
    case ElseLine =>
      if Awaiting(s.loops.top) then None
      else if s.ifs.top.state != IThen then Some(t.(ifs := Base(ResetIf), fail := true))
      else Some(t.(ifs := s.ifs.Set(s.ifs.top.(state := IElse))))
    case FiLine =>
      if Awaiting(s.loops.top) then None
      else if s.ifs.Base? || (s.ifs.top.state != IThen && s.ifs.top.state != IElse)
      then Some(t.(ifs := Base(ResetIf), fail := true))
      else Some(t.(ifs := s.ifs.below))
    case LoopLine(until, c) =>
      if !s.Open() || s.loops.Depth() + 1 >= n then None
      else
        var e := LoopEntry(if until then LUntil else LWhile, s.On(), s.ifs.Depth(), s.pos);
        if !IfOn(s.ifs.top) then Some(t.(loops := Push(e, s.loops)))
        else
          var r := o(t.Ran(c).history);
          Some(t.Ran(c).(fail := false, loops := Push(e.(enable := until == r), s.loops)))
    case DoLine =>
      if !Awaiting(s.loops.top) then None
      else Some(t.(loops := s.loops.Set(s.loops.top.(state := LDo))))
    case DoneLine =>
      if s.loops.Base? || s.loops.top.state != LDo then None
      else
        var u := t.(loops := s.loops.below);
        Some(if s.loops.top.enable then u.(pos := s.loops.top.topoffs) else u)
  }

  /** A script to run: its lines, the results of commands, the nesting limit and the step they give.
      The step is a value, so that a run is reasoned about without looking into it; `Fires` says
      where to look. */
  datatype Code = Code(ls: seq<Line>, o: Oracle, n: nat, step: State -> Option<State>)

  predicate Fires(s: State) {
    true
  }

  ghost predicate Sound(c: Code) {
    forall s: State {:trigger Fires(s)} :: Fires(s) && s.pos < |c.ls| ==> c.step(s) == Step(c.ls[s.pos], c.o, c.n, s)
  }

  function CodeOf(ls: seq<Line>, o: Oracle, n: nat): (c: Code)
    ensures Sound(c)
  {
    Code(ls, o, n, (s: State) => if s.pos < |ls| then Step(ls[s.pos], o, n, s) else None)
  }

  /** At most k lines, or until the end of the script. */
  function Steps(c: Code, s: State, k: nat): Option<State>
    decreases k
  {
    if k == 0 || s.pos >= |c.ls| then Some(s)
    else
      match c.step(s)
      case None => None
      case Some(t) => Steps(c, t, k - 1)
  }

  lemma {:induction false} StepsAdd(c: Code, s: State, j: nat, t: State, k: nat)
    requires Steps(c, s, j) == Some(t)
    ensures Steps(c, s, j + k) == Steps(c, t, k)
    decreases j
  {
    if j > 0 && s.pos < |c.ls| {
      StepsAdd(c, c.step(s).value, j - 1, t, k);
    }
  }

  // ----- the array machine follows the stack machine -----

  function Above<T>(a: seq<T>, k: nat): (s: Stack<T>)
    requires k < |a|
    ensures s.top == a[k] && s.Depth() == k && (s.Push? <==> k > 0)
  {
    if k == 0 then Base(a[0]) else Push(a[k], Above(a, k - 1))
  }

  lemma {:induction false} AbovePrefix<T>(a: seq<T>, b: seq<T>, k: nat)
    requires k < |a| && k < |b| && a[..k + 1] == b[..k + 1]
    ensures Above(a, k) == Above(b, k)
  {
    assert a[k] == a[..k + 1][k] && b[k] == b[..k + 1][k];
    if k > 0 {
      assert a[..k] == a[..k + 1][..k] && b[..k] == b[..k + 1][..k];
      AbovePrefix(a, b, k - 1);
    }
  }

  /** Pushing an entry, rewriting the top entry and cutting back. */
  lemma {:induction false} AbovePush<T>(a: seq<T>, k: nat, e: T)
    requires k + 1 < |a|
    ensures Above(a[k + 1 := e], k + 1) == Push(e, Above(a, k))
  {
    AbovePrefix(a[k + 1 := e], a, k);
  }

  lemma {:induction false} AboveSet<T>(a: seq<T>, k: nat, e: T)
    requires k < |a|
    ensures Above(a[k := e], k) == Above(a, k).Set(e)
    ensures k > 0 ==> Above(a[k := e], k - 1) == Above(a, k - 1)
  {
    if k > 0 {
      AbovePrefix(a[k := e], a, k - 1);
    }
  }

  lemma {:induction false} AboveCut<T>(a: seq<T>, k: nat, d: nat)
    requires d <= k < |a|
    ensures Above(a, k).Cut(d) == Above(a, d)
  {
    if d < k {
      AboveCut(a, k - 1, d);
    }
  }

  /** What the array machine's state stands for. */
  ghost function View(p: Parser): State
    requires Indexed(p)
  {
    State(p.pos, p.history, p.fail, Above(p.ie, p.iendx), Above(p.lp, p.lpndx))
  }

  /** The array machine's step on a line is the stack machine's step. */
  ghost predicate Follows(l: Line, o: Oracle, p: Parser)
    requires Indexed(p) && Step(l, o, |p.ie|, View(p)).Some?
  {
    var q := ParseCommand(ReadLine(p), Words(l), o).p;
    q.inScript && |q.ie| == |p.ie| && View(q) == Step(l, o, |p.ie|, View(p)).value
  }

  lemma {:induction false} CmdFollows(c: Command, o: Oracle, p: Parser)
    requires Indexed(p) && p.inScript && Step(CmdLine(c), o, |p.ie|, View(p)).Some?
    ensures Follows(CmdLine(c), o, p)
  {
    var q := ReadLine(p);
    assert LoopStep(q, c) == Parsed(q, c, Fine) && ItefStep(q, c) == Parsed(q, c, Fine);
  }

  lemma {:induction false} BreakFollows(o: Oracle, p: Parser)
    requires Indexed(p) && p.inScript && Step(BreakLine, o, |p.ie|, View(p)).Some?
    ensures Follows(BreakLine, o, p)
  {
    var q := ReadLine(p);
    assert LoopStep(q, [Break]) == Parsed(q, [Break], Fine) && ItefStep(q, [Break]) == Parsed(q, [Break], Fine);
    if View(p).On() && LoopTop(p).state == LDo {
      AboveCut(p.ie, p.iendx, LoopTop(p).iendx);
      AboveSet(p.lp, p.lpndx, LoopTop(p).(enable := false));
    }
  }

  lemma {:induction false} IfParses(inv: bool, c: Command, q: Parser)
    requires Indexed(q) && !Awaiting(LoopTop(q)) && IfTop(q).state != IIf && q.iendx + 1 < |q.ie|
    ensures LoopStep(q, Words(IfLine(inv, c))) == Parsed(q, Words(IfLine(inv, c)), Fine)
    ensures var e := IfEntry(IIf, !CmdEnabled(q), false, inv);
            ItefStep(q, Words(IfLine(inv, c))) == Parsed(q.(iendx := q.iendx + 1, ie := q.ie[q.iendx + 1 := e]), c, Fine)
  {
    var w := Words(IfLine(inv, c));
    assert w[1..] == if inv then [Bang] + c else c;
    assert inv ==> w[1..][1..] == c;
  }

  /** The result of a condition goes to the entry just pushed. */
  lemma {:induction false} IfCondition(q: Parser, e: IfEntry, c: Command, o: Oracle)
    requires Indexed(q) && !Awaiting(LoopTop(q)) && q.iendx + 1 < |q.ie| && e.state == IIf
    ensures var q' := q.(iendx := q.iendx + 1, ie := q.ie[q.iendx + 1 := e]);
            var h := q.history + [Event(c, q.fail)];
            && View(q') == View(q).(ifs := Push(e, View(q).ifs))
            && View(Execute(q', c, o))
               == View(q').(history := h, fail := false, ifs := Push(e.(ifcond := e.inverted != o(h)), View(q).ifs))
  {
    AbovePush(q.ie, q.iendx, e);
    var e' := e.(ifcond := e.inverted != o(q.history + [Event(c, q.fail)]));
    AbovePush(q.ie, q.iendx, e');
    assert q.ie[q.iendx + 1 := e][q.iendx + 1 := e'] == q.ie[q.iendx + 1 := e'];
  }

  lemma {:induction false} IfFollows(inv: bool, c: Command, o: Oracle, p: Parser)
    requires Indexed(p) && p.inScript && Step(IfLine(inv, c), o, |p.ie|, View(p)).Some?
    ensures Follows(IfLine(inv, c), o, p)
  {
    var q := ReadLine(p);
    IfParses(inv, c, q);
    IfCondition(q, IfEntry(IIf, !CmdEnabled(q), false, inv), c, o);
  }

  lemma {:induction false} ThenFollows(l: Line, o: Oracle, p: Parser)
    requires l.ThenLine? || l.ElseLine?
    requires Indexed(p) && p.inScript && Step(l, o, |p.ie|, View(p)).Some?
    ensures Follows(l, o, p)
  {
    var q, w := ReadLine(p), Words(l);
    assert LoopStep(q, w) == Parsed(q, w, Fine);
    if l.ThenLine? || IfTop(p).state == IThen {
      var e := IfTop(p).(state := if l.ThenLine? then IThen else IElse);
      assert ItefStep(q, w) == Parsed(SetIf(q, e), [], Fine);
      AboveSet(p.ie, p.iendx, e);
    } else {
      assert ItefStep(q, w) == IfErr(q, BadContext);
      ErrFollows(q, BadContext);
    }
  }

  lemma {:induction false} ErrFollows(p: Parser, d: Diag)
    requires Indexed(p) && !Awaiting(LoopTop(p))
    ensures View(SaveResult(IfErr(p, d).p, true)) == View(p).(ifs := Base(ResetIf), fail := true)
  {
    var q := IfErr(p, d).p;
    assert IfTop(q) == ResetIf && LoopTop(q) == LoopTop(p);
  }

  lemma {:induction false} FiParses(p: Parser, o: Oracle)
    requires Indexed(p) && !Awaiting(LoopTop(p)) && p.iendx > 0 && (IfTop(p).state == IThen || IfTop(p).state == IElse)
    ensures ParseCommand(p, [Fi], o).p == p.(iendx := p.iendx - 1)
  {
    assert LoopStep(p, [Fi]) == Parsed(p, [Fi], Fine);
  }

  lemma {:induction false} FiFails(p: Parser, o: Oracle) returns (d: Diag)
    requires Indexed(p) && !Awaiting(LoopTop(p)) && (p.iendx == 0 || (IfTop(p).state != IThen && IfTop(p).state != IElse))
    ensures ParseCommand(p, [Fi], o).p == SaveResult(IfErr(p, d).p, true)
  {
    assert LoopStep(p, [Fi]) == Parsed(p, [Fi], Fine);
    d := ItefStep(p, [Fi]).diag;
  }

  lemma {:induction false} FiFollows(o: Oracle, p: Parser)
    requires Indexed(p) && p.inScript && Step(FiLine, o, |p.ie|, View(p)).Some?
    ensures Follows(FiLine, o, p)
  {
    var q := ReadLine(p);
    if p.iendx > 0 && (IfTop(p).state == IThen || IfTop(p).state == IElse) {
      FiParses(q, o);
    } else {
      var d := FiFails(q, o);
      ErrFollows(q, d);
    }
  }

  lemma {:induction false} LoopParses(until: bool, c: Command, q: Parser)
    requires Indexed(q) && !Awaiting(LoopTop(q)) && IfTop(q).state != IIf && q.lpndx + 1 < |q.lp|
    requires q.inScript && q.foffs >= 0 && !q.jump
    ensures var e := LoopEntry(if until then LUntil else LWhile, CmdEnabled(q), q.iendx, q.foffs);
            var q' := q.(lpndx := q.lpndx + 1, lp := q.lp[q.lpndx + 1 := e]);
            LoopStep(q, Words(LoopLine(until, c))) == Parsed(q', c, Fine) && ItefStep(q', c) == Parsed(q', c, Fine)
  {
    assert Words(LoopLine(until, c))[1..] == c;
  }

  lemma {:induction false} LoopCondition(q: Parser, e: LoopEntry, c: Command, o: Oracle)
    requires Indexed(q) && q.lpndx + 1 < |q.lp| && Awaiting(e) && e.iendx < |q.ie|
    ensures var q' := q.(lpndx := q.lpndx + 1, lp := q.lp[q.lpndx + 1 := e]);
            var h := q.history + [Event(c, q.fail)];
            && View(q') == View(q).(loops := Push(e, View(q).loops))
            && View(Execute(q', c, o))
               == View(q').(history := h, fail := false,
                            loops := Push(e.(enable := (e.state == LUntil) == o(h)), View(q).loops))
  {
    AbovePush(q.lp, q.lpndx, e);
    var e' := e.(enable := (e.state == LUntil) == o(q.history + [Event(c, q.fail)]));
    AbovePush(q.lp, q.lpndx, e');
    assert q.lp[q.lpndx + 1 := e][q.lpndx + 1 := e'] == q.lp[q.lpndx + 1 := e'];
  }

  lemma {:induction false} LoopFollows(until: bool, c: Command, o: Oracle, p: Parser)
    requires Indexed(p) && p.inScript && Step(LoopLine(until, c), o, |p.ie|, View(p)).Some?
    ensures Follows(LoopLine(until, c), o, p)
  {
    var q := ReadLine(p);
    LoopParses(until, c, q);
    LoopCondition(q, LoopEntry(if until then LUntil else LWhile, CmdEnabled(q), q.iendx, q.foffs), c, o);
  }

  lemma {:induction false} DoFollows(o: Oracle, p: Parser)
    requires Indexed(p) && p.inScript && Step(DoLine, o, |p.ie|, View(p)).Some?
    ensures Follows(DoLine, o, p)
  {
    var q, e := ReadLine(p), LoopTop(p).(state := LDo);
    assert LoopStep(q, [Do]) == Parsed(SetLoop(q, e), [], Fine);
    AboveSet(p.lp, p.lpndx, e);
  }

  lemma {:induction false} DoneFollows(o: Oracle, p: Parser)
    requires Indexed(p) && p.inScript && Step(DoneLine, o, |p.ie|, View(p)).Some?
    ensures Follows(DoneLine, o, p)
  {
    var q, e := ReadLine(p), LoopTop(p).(state := LNormal, enable := true);
    var q' := SetLoop(q, e).(lpndx := p.lpndx - 1);
    assert LoopStep(q, [Done]) == Parsed(if LoopTop(p).enable then q'.(pos := LoopTop(p).topoffs, jump := true) else q', [], Fine);
    AboveSet(p.lp, p.lpndx, e);
  }

  /** One line of the array machine is one step of the stack machine. */
  lemma {:induction false} LineRefines(l: Line, o: Oracle, p: Parser)
    requires Indexed(p) && p.inScript && Step(l, o, |p.ie|, View(p)).Some?
    ensures Follows(l, o, p)
  {
    match l
    case CmdLine(c) => CmdFollows(c, o, p);
    case BreakLine => BreakFollows(o, p);
    case IfLine(inv, c) => IfFollows(inv, c, o, p);
    case LoopLine(until, c) => LoopFollows(until, c, o, p);
    case DoLine => DoFollows(o, p);
    case DoneLine => DoneFollows(o, p);
    case ThenLine | ElseLine => ThenFollows(l, o, p);
    case FiLine => FiFollows(o, p);
  }

  /** So is a run. */
  lemma {:induction false} RunRefines(c: Code, r: Reader, p: Parser, k: nat)
    requires Sound(c) && Reads(r) && r.script == Script(c.ls) && r.o == c.o
    requires Indexed(p) && p.inScript && c.n == |p.ie|
    requires Steps(c, View(p), k).Some?
    ensures Indexed(Run(r, p, k)) && View(Run(r, p, k)) == Steps(c, View(p), k).value
    decreases k
  {
    if k > 0 && p.pos < |c.ls| {
      StepRefines(c, r, p);
      RunRefines(c, r, r.step(p), k - 1);
    }
  }

  lemma {:induction false} StepRefines(c: Code, r: Reader, p: Parser)
    requires Sound(c) && Reads(r) && r.script == Script(c.ls) && r.o == c.o
    requires Indexed(p) && p.inScript && c.n == |p.ie| && p.pos < |c.ls|
    requires c.step(View(p)).Some?
    ensures Indexed(r.step(p)) && r.step(p).inScript && c.n == |r.step(p).ie|
    ensures c.step(View(p)) == Some(View(r.step(p)))
  {
    assert LooksAt(p) && Fires(View(p));
    LineRefines(c.ls[p.pos], c.o, p);
  }
}
