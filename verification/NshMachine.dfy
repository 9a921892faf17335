/**
 The flat script machine of NSH: the parser state of one session and what one
 command line does to it. A line arrives here as the list of its words, after
 tokenizing and expansion. The machine keeps two bounded stacks, one for
 if-then-else-fi and one for while/until-do-done, an index into each, and the
 offset in the script file that the next line is read from.
 */
module NshMachine {

  datatype Word =
    | While | Until | Do | Done
    | If | Bang | Then | Else | Fi
    | Break
    | Text(s: string)

  /** A command that ran, with the value of `$?` it could see (true: failure). */
  datatype Event = Event(words: seq<Word>, status: bool)

  /** The result of the last command of a history (true: failure). Commands are
      arbitrary: a result may depend on everything that ran before. */
  type Oracle = seq<Event> -> bool

  datatype IfState = INormal | IIf | IThen | IElse
  datatype IfEntry = IfEntry(state: IfState, disabled: bool, ifcond: bool, inverted: bool)

  datatype LoopState = LNormal | LWhile | LUntil | LDo
  datatype LoopEntry = LoopEntry(state: LoopState, enable: bool, iendx: nat, topoffs: nat)

  /** struct nsh_parser_s, with the position of the script file and the history of commands. */
  datatype Parser = Parser(
    fail: bool, jump: bool, inScript: bool, foffs: int, pos: nat,
    lpndx: nat, iendx: nat, lp: seq<LoopEntry>, ie: seq<IfEntry>,
    history: seq<Event>)

  /** What a parsing step reports; `Internal` marks the branches commented "Shouldn't happen". */
  datatype Diag = Fine | ArgInvalid | BadContext | DeepNesting | Internal

  /** The state after a step, the words left on the line and the diagnosis. */
  datatype Parsed = Parsed(p: Parser, words: seq<Word>, diag: Diag)

  const ResetIf := IfEntry(INormal, false, false, false)

  /** Both indices address their stack; uint8_t indices bound the nesting depth. */
  ghost predicate Indexed(p: Parser) {
    && 1 <= |p.lp| == |p.ie| <= 256
    && p.lpndx < |p.lp| && p.iendx < |p.ie|
    && SavedBelow(p.lp, |p.ie|)
  }

  /** Every saved if index addresses the if stack. */
  ghost predicate SavedBelow(lp: seq<LoopEntry>, n: nat) {
    forall j :: 0 <= j < |lp| ==> lp[j].iendx < n
  }

  /** The invariant of the machine: entry 0 of each stack is never in use. */
  ghost predicate Inv(p: Parser) {
    Indexed(p) && p.lp[0].state == LNormal && p.ie[0].state == INormal
  }

  function LoopTop(p: Parser): (e: LoopEntry)
    requires Indexed(p)
    ensures e.iendx < |p.ie|
  {
    p.lp[p.lpndx]
  }

  function IfTop(p: Parser): IfEntry
    requires Indexed(p)
  {
    p.ie[p.iendx]
  }

  predicate LoopOn(e: LoopEntry) {
    e.state == LDo ==> e.enable
  }

  predicate IfOn(e: IfEntry) {
    !e.disabled && (e.state == IThen ==> !e.ifcond) && (e.state == IElse ==> e.ifcond)
  }

  predicate Awaiting(e: LoopEntry) {
    e.state == LWhile || e.state == LUntil
  }

  predicate CmdEnabled(p: Parser)
    requires Indexed(p)
  {
    LoopOn(LoopTop(p)) && IfOn(IfTop(p))
  }

  predicate MissingWord(words: seq<Word>) {
    words == [] || words[0] == Text("")
  }

  function SetLoop(p: Parser, e: LoopEntry): (q: Parser)
    requires Indexed(p) && e.iendx < |p.ie|
    ensures Indexed(q)
  {
    p.(lp := p.lp[p.lpndx := e])
  }

  function SetIf(p: Parser, e: IfEntry): (q: Parser)
    requires Indexed(p)
    ensures Indexed(q)
  {
    p.(ie := p.ie[p.iendx := e])
  }

  /** Where the result of a command goes: into the loop condition being awaited,
      else into the if condition being awaited, else into `$?`. */
  function SaveResult(p: Parser, result: bool): (q: Parser)
    requires Indexed(p)
    ensures Indexed(q) && (Inv(p) ==> Inv(q))
    ensures q.history == p.history
  {
    var l, i := LoopTop(p), IfTop(p);
    if l.state == LWhile then SetLoop(p, l.(enable := !result)).(fail := false)
    else if l.state == LUntil then SetLoop(p, l.(enable := result)).(fail := false)
    else if i.state == IIf then SetIf(p, i.(ifcond := i.inverted != result)).(fail := false)
    else p.(fail := result)
  }

  /** The recovery of the loop parser from an error. */
  function LoopErr(p: Parser, diag: Diag): (r: Parsed)
    requires Indexed(p)
    ensures Indexed(r.p) && (Inv(p) ==> Inv(r.p))
    ensures r.p.history == p.history
  {
    Parsed(p.(jump := false, lpndx := 0, lp := p.lp[0 := LoopEntry(LNormal, true, p.lp[0].iendx, 0)]), [], diag)
  }

  /** while, until, do and done. */
  function LoopStep(p: Parser, words: seq<Word>): (r: Parsed)
    requires Indexed(p)
    ensures Indexed(r.p)
    ensures Inv(p) ==> Inv(r.p) && r.diag != Internal
    ensures r.p.history == p.history
  {
    if words == [] then Parsed(p, words, Fine)
    else
      var top, rest := LoopTop(p), words[1..];
      match words[0]
      case While | Until =>
        if MissingWord(rest) then LoopErr(p, ArgInvalid)
        else if IfTop(p).state == IIf || Awaiting(top) || !p.inScript || p.foffs < 0 then LoopErr(p, BadContext)
        else if p.lpndx >= |p.lp| - 1 then LoopErr(p, DeepNesting)
        else
          var e := LoopEntry(if words[0] == While then LWhile else LUntil, CmdEnabled(p), p.iendx, p.foffs);
          Parsed(p.(jump := false, lpndx := p.lpndx + 1, lp := p.lp[p.lpndx + 1 := e]), rest, Fine)
      case Do =>
        if !Awaiting(top) then LoopErr(p, BadContext)
        else Parsed(SetLoop(p, top.(state := LDo)), rest, Fine)
      case Done =>
        if rest != [] then LoopErr(p, ArgInvalid)
        else if top.state != LDo then LoopErr(p, BadContext)
        else if p.lpndx < 1 then LoopErr(p, Internal)
        else
          var q := SetLoop(p, top.(state := LNormal, enable := true)).(lpndx := p.lpndx - 1);
          Parsed(if top.enable then q.(pos := top.topoffs, jump := true) else q, rest, Fine)
      case _ =>
        if Awaiting(top) then LoopErr(p, BadContext) else Parsed(p, words, Fine)
  }

  /** The recovery of the if-then-else-fi parser from an error. */
  function IfErr(p: Parser, diag: Diag): (r: Parsed)
    requires Indexed(p)
    ensures Indexed(r.p) && (Inv(p) ==> Inv(r.p))
    ensures r.p.history == p.history
  {
    Parsed(p.(iendx := 0, ie := p.ie[0 := ResetIf]), [], diag)
  }

  /** if, then, else and fi. */
  function ItefStep(p: Parser, words: seq<Word>): (r: Parsed)
    requires Indexed(p)
    ensures Indexed(r.p)
    ensures Inv(p) ==> Inv(r.p) && r.diag != Internal
    ensures r.p.history == p.history
  {
    if words == [] then Parsed(p, words, Fine)
    else
      var top, rest := IfTop(p), words[1..];
      match words[0]
      case If =>
        if MissingWord(rest) then IfErr(p, ArgInvalid)
        else
          var inverted := rest[0] == Bang;
          var cmd := if inverted then rest[1..] else rest;
          if MissingWord(cmd) then IfErr(p, ArgInvalid)
          else if top.state == IIf then IfErr(p, BadContext)
          else if p.iendx >= |p.ie| - 1 then IfErr(p, DeepNesting)
          else
            var e := IfEntry(IIf, !CmdEnabled(p), false, inverted);
            Parsed(p.(iendx := p.iendx + 1, ie := p.ie[p.iendx + 1 := e]), cmd, Fine)
      case Then =>
        if top.state != IIf then IfErr(p, BadContext)
        else Parsed(SetIf(p, top.(state := IThen)), rest, Fine)
      case Else =>
        if top.state != IThen then IfErr(p, BadContext)
        else Parsed(SetIf(p, top.(state := IElse)), rest, Fine)
      case Fi =>
        if rest != [] then IfErr(p, ArgInvalid)
        else if top.state != IThen && top.state != IElse then IfErr(p, BadContext)
        else if p.iendx < 1 then IfErr(p, Internal)
        else Parsed(p.(iendx := p.iendx - 1), rest, Fine)
      case _ =>
        if top.state == IIf then IfErr(p, BadContext) else Parsed(p, words, Fine)
  }

  /** `break` drops the if nesting back to where the loop began and disables the rest of the body. */
  function CmdBreak(p: Parser): (q: Parser)
    requires Indexed(p)
    ensures Indexed(q) && (Inv(p) ==> Inv(q))
  {
    if LoopTop(p).state == LDo then SetLoop(p, LoopTop(p).(enable := false)).(iendx := LoopTop(p).iendx) else p
  }

  /** Runs a command and files its result. */
  function Execute(p: Parser, words: seq<Word>, o: Oracle): (q: Parser)
    requires Indexed(p) && words != []
    ensures Indexed(q) && (Inv(p) ==> Inv(q))
    ensures q.history == p.history + [Event(words, p.fail)]
  {
    var h := p.history + [Event(words, p.fail)];
    var q := p.(history := h);
    if words[0] == Break then SaveResult(CmdBreak(q), false) else SaveResult(q, o(h))
  }

  /** One command line. A line that only carries structure, or that is disabled, runs nothing
      and leaves `$?` alone. */
  function ParseCommand(p: Parser, words: seq<Word>, o: Oracle): (r: Parsed)
    requires Indexed(p)
    ensures Indexed(r.p)
    ensures Inv(p) ==> Inv(r.p) && r.diag != Internal
    ensures p.history <= r.p.history
  {
    var l := LoopStep(p, words);
    if l.diag != Fine then Parsed(SaveResult(l.p, true), [], l.diag)
    else
      var i := ItefStep(l.p, l.words);
      if i.diag != Fine then Parsed(SaveResult(i.p, true), [], i.diag)
      else if i.words == [] || !CmdEnabled(i.p) then Parsed(i.p, [], Fine)
      else
        Parsed(Execute(i.p, i.words, o), [], Fine)
  }

  /** Whether a command runs: on a line that is no part of a loop or an if, and while no condition is
      awaited, it does exactly when both top entries enable commands; otherwise nothing changes at all. */
  lemma {:induction false} EnabledRuns(p: Parser, words: seq<Word>, o: Oracle)
    requires Indexed(p) && words != [] && (words[0].Text? || words[0] == Break || words[0] == Bang)
    requires !Awaiting(LoopTop(p)) && IfTop(p).state != IIf
    ensures var q := ParseCommand(p, words, o).p;
            if CmdEnabled(p) then q.history == p.history + [Event(words, p.fail)] else q == p
  {
    assert LoopStep(p, words) == Parsed(p, words, Fine) && ItefStep(p, words) == Parsed(p, words, Fine);
  }

  /** Reading one line of the script moves the file position past it; `done` may move it back. */
  function ReadLine(p: Parser): Parser {
    p.(foffs := p.pos, pos := p.pos + 1, jump := false)
  }

  /** A script being read: its lines, the results of commands, and what reading the next line does.
      The step is a value, so that a run is reasoned about without looking into it; `LooksAt` says
      where to look. */
  datatype Reader = Reader(script: seq<seq<Word>>, o: Oracle, step: Parser -> Parser)

  predicate LooksAt(p: Parser) {
    true
  }

  ghost predicate Reads(r: Reader) {
    forall p: Parser {:trigger LooksAt(p)} :: LooksAt(p) && Indexed(p) && p.pos < |r.script| ==>
      r.step(p) == ParseCommand(ReadLine(p), r.script[p.pos], r.o).p
  }

  ghost function ReaderOf(script: seq<seq<Word>>, o: Oracle): (r: Reader)
    ensures Reads(r) && r.script == script && r.o == o
  {
    Reader(script, o, (p: Parser) => if Indexed(p) && p.pos < |script|
                                     then ParseCommand(ReadLine(p), script[p.pos], o).p else p)
  }

  /** The line loop: at most k lines, or until the end of the file. */
  function Run(r: Reader, p: Parser, k: nat): Parser
    decreases k
  {
    if k == 0 || p.pos >= |r.script| then p else Run(r, r.step(p), k - 1)
  }

  /** In every run, of any lines whatsoever, the machine's invariant holds. */
  lemma {:induction false} RunKeeps(r: Reader, p: Parser, k: nat)
    requires Reads(r) && Indexed(p)
    ensures Indexed(Run(r, p, k)) && (Inv(p) ==> Inv(Run(r, p, k)))
    decreases k
  {
    if k > 0 && p.pos < |r.script| {
      StepKeeps(r, p);
      RunKeeps(r, r.step(p), k - 1);
    }
  }

  lemma {:induction false} StepKeeps(r: Reader, p: Parser)
    requires Reads(r) && Indexed(p) && p.pos < |r.script|
    ensures Indexed(r.step(p)) && (Inv(p) ==> Inv(r.step(p)))
  {
    assert LooksAt(p);
  }

  /** No line read in any run takes a branch that "shouldn't happen". */
  lemma {:induction false} NeverInternal(r: Reader, p: Parser, k: nat)
    requires Reads(r) && Inv(p) && Run(r, p, k).pos < |r.script|
    ensures Inv(Run(r, p, k))
    ensures var q := Run(r, p, k); ParseCommand(ReadLine(q), r.script[q.pos], r.o).diag != Internal
  {
    RunKeeps(r, p, k);
  }
}
