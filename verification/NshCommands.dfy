/**
 What single command lines do that no line of a well-formed script shows: a command on the line of its
 `then`, `else` or `do`, and lines that are errors.
 */
module NshCommands {
  import opened NshMachine

  /** The state after `then` or `else`, and after the command behind it on the same line if that runs. The
      words behind are the command as they stand, whatever they are. */
  ghost function Taken(p: Parser, state: IfState, runs: bool, c: seq<Word>, o: Oracle): Parser
    requires Indexed(p)
  {
    var h := p.history + [Event(c, p.fail)];
    var q := p.(ie := p.ie[p.iendx := IfTop(p).(state := state)]);
    if runs then q.(history := h, fail := o(h)) else q
  }

  /** A command on the line of its `then` runs exactly when the condition held, in an if that is itself
      enabled; otherwise only the state of the entry changes. */
  lemma {:induction false} ThenTakes(p: Parser, c: seq<Word>, o: Oracle)
    requires Indexed(p) && !Awaiting(LoopTop(p)) && IfTop(p).state == IIf && c != [] && c[0] != Break
    ensures var runs := LoopOn(LoopTop(p)) && !IfTop(p).disabled && !IfTop(p).ifcond;
            ParseCommand(p, [Then] + c, o) == Parsed(Taken(p, IThen, runs, c, o), [], Fine)
  {
    var q := SetIf(p, IfTop(p).(state := IThen));
    assert ([Then] + c)[1..] == c;
    assert LoopStep(p, [Then] + c) == Parsed(p, [Then] + c, Fine);
    assert ItefStep(p, [Then] + c) == Parsed(q, c, Fine);
  }

  /** A command on the line of its `else` runs exactly when the condition did not hold. */
  lemma {:induction false} ElseTakes(p: Parser, c: seq<Word>, o: Oracle)
    requires Indexed(p) && !Awaiting(LoopTop(p)) && IfTop(p).state == IThen && c != [] && c[0] != Break
    ensures var runs := LoopOn(LoopTop(p)) && !IfTop(p).disabled && IfTop(p).ifcond;
            ParseCommand(p, [Else] + c, o) == Parsed(Taken(p, IElse, runs, c, o), [], Fine)
  {
    var q := SetIf(p, IfTop(p).(state := IElse));
    assert ([Else] + c)[1..] == c;
    assert LoopStep(p, [Else] + c) == Parsed(p, [Else] + c, Fine);
    assert ItefStep(p, [Else] + c) == Parsed(q, c, Fine);
  }

  /** A word that is no part of an if or a loop. */
  predicate IsPlain(w: Word) {
    w.Text? || w == Break || w == Bang
  }

  /** A command on the line of its `do` runs exactly when the loop is entered and the ifs around it are
      enabled. */
  lemma {:induction false} DoTakes(p: Parser, c: seq<Word>, o: Oracle)
    requires Indexed(p) && Awaiting(LoopTop(p)) && IfTop(p).state != IIf && c != [] && IsPlain(c[0]) && c[0] != Break
    ensures var q := p.(lp := p.lp[p.lpndx := LoopTop(p).(state := LDo)]);
            var h := p.history + [Event(c, p.fail)];
            var runs := LoopTop(p).enable && IfOn(IfTop(p));
            ParseCommand(p, [Do] + c, o) == Parsed(if runs then q.(history := h, fail := o(h)) else q, [], Fine)
  {
    var q := SetLoop(p, LoopTop(p).(state := LDo));
    assert ([Do] + c)[1..] == c;
    assert LoopStep(p, [Do] + c) == Parsed(q, c, Fine);
    assert ItefStep(q, c) == Parsed(q, c, Fine);
  }

  /** The machine is about to read `then`, `else` or `do` where it belongs; q is the state after it. */
  ghost predicate Turns(p: Parser, w: Word, q: Parser)
    requires Indexed(p)
  {
    match w
    case Then => !Awaiting(LoopTop(p)) && IfTop(p).state == IIf && q == SetIf(p, IfTop(p).(state := IThen))
    case Else => !Awaiting(LoopTop(p)) && IfTop(p).state == IThen && q == SetIf(p, IfTop(p).(state := IElse))
    case Do => Awaiting(LoopTop(p)) && IfTop(p).state != IIf && q == SetLoop(p, LoopTop(p).(state := LDo))
    case _ => false
  }

  lemma {:induction false} TurnsParse(p: Parser, w: Word, c: seq<Word>, q: Parser, o: Oracle)
    requires Indexed(p) && Turns(p, w, q) && (c != [] ==> IsPlain(c[0]))
    ensures Indexed(q) && ParseCommand(p, [w] + c, o).p == if c == [] || !CmdEnabled(q) then q else Execute(q, c, o)
  {
    assert ([w] + c)[1..] == c;
    if w == Do {
      assert LoopStep(p, [w] + c) == Parsed(q, c, Fine) && ItefStep(q, c) == Parsed(q, c, Fine);
    } else {
      assert LoopStep(p, [w] + c) == Parsed(p, [w] + c, Fine) && ItefStep(p, [w] + c) == Parsed(q, c, Fine);
    }
  }

  /** One line is as good as two: a plain command, or `break`, behind `then`, `else` or `do` does what it
      does on the next line. */
  lemma {:induction false} SameLine(p: Parser, w: Word, c: seq<Word>, q: Parser, o: Oracle)
    requires Indexed(p) && Turns(p, w, q) && c != [] && IsPlain(c[0])
    ensures ParseCommand(p, [w], o).p == q && ParseCommand(p, [w] + c, o).p == ParseCommand(q, c, o).p
  {
    TurnsParse(p, w, c, q, o);
    TurnsParse(p, w, [], q, o);
    assert [w] + [] == [w];
    assert LoopStep(q, c) == Parsed(q, c, Fine) && ItefStep(q, c) == Parsed(q, c, Fine);
  }

  // ----- lines that are errors -----

  /** The words of a condition: a command, with `!` in front of it or not. */
  predicate IsCondition(w: seq<Word>) {
    && w != [] && w[0] != Text("")
    && (w[0] == Bang ==> |w| > 1 && w[1] != Text(""))
  }

  /** A word that a loop cannot take here, or that must stand alone and does not. */
  ghost predicate LoopBad(p: Parser, words: seq<Word>)
    requires Indexed(p)
  {
    words != [] &&
      match words[0]
      case While | Until =>
        || |words| == 1 || words[1] == Text("") || Awaiting(LoopTop(p)) || IfTop(p).state == IIf
        || p.lpndx + 1 == |p.lp| || !p.inScript || p.foffs < 0
      case Do => !Awaiting(LoopTop(p))
      case Done => LoopTop(p).state != LDo || |words| > 1
      case _ => Awaiting(LoopTop(p))
  }

  /** The same for an if. */
  ghost predicate IfBad(p: Parser, words: seq<Word>)
    requires Indexed(p)
  {
    words != [] &&
      match words[0]
      case If => !IsCondition(words[1..]) || IfTop(p).state == IIf || p.iendx + 1 == |p.ie|
      case Then => IfTop(p).state != IIf
      case Else => IfTop(p).state != IThen
      case Fi => |words| > 1 || (IfTop(p).state != IThen && IfTop(p).state != IElse)
      case _ => IfTop(p).state == IIf
  }

  /** The words of a line that the loop parser leaves. */
  function Left(words: seq<Word>): seq<Word> {
    if words == [] || words[0] == Done then []
    else if words[0] == While || words[0] == Until || words[0] == Do then words[1..] else words
  }

  lemma {:induction false} LoopErrs(p: Parser, words: seq<Word>)
    requires Inv(p)
    ensures var l := LoopStep(p, words);
            if LoopBad(p, words) then l.diag != Fine && l.p == LoopErr(p, l.diag).p
            else l.diag == Fine && l.words == Left(words) && LoopDone(p, words, l.p)
  {
  }

  /** What the if parser needs to know of the loop parser. */
  ghost predicate LoopDone(p: Parser, words: seq<Word>, q: Parser) {
    && Inv(q) && q.history == p.history && q.iendx == p.iendx && q.ie == p.ie
    && (Awaiting(LoopTop(q)) ==> words == [] || words[0] == While || words[0] == Until || words[0] == Done)
  }

  lemma {:induction false} IfErrs(p: Parser, words: seq<Word>)
    requires Inv(p)
    ensures var i := ItefStep(p, words);
            if IfBad(p, words) then i.diag != Fine && i.p == IfErr(p, i.diag).p else i.diag == Fine
  {
  }

  /** A line that is an error runs nothing and closes all loops or all ifs, and `$?` is a failure, unless a
      condition was awaited. */
  ghost predicate LoopFailed(p: Parser, q: Parser)
    requires Indexed(p)
  {
    && q.history == p.history && q.iendx == p.iendx && (q.fail <==> IfTop(p).state != IIf)
    && q.lpndx == 0 && !q.jump && q.lp == p.lp[0 := LoopEntry(LNormal, true, p.lp[0].iendx, 0)]
  }

  ghost predicate IfFailed(p: Parser, words: seq<Word>, q: Parser) {
    && q.history == p.history && q.iendx == 0 && |p.ie| > 0 && q.ie == p.ie[0 := ResetIf]
    && (words != [] && words[0] != While && words[0] != Until && words[0] != Done ==> q.fail)
  }

  lemma {:induction false} LoopFails(p: Parser, d: Diag)
    requires Inv(p)
    ensures LoopFailed(p, SaveResult(LoopErr(p, d).p, true))
  {
  }

  lemma {:induction false} IfFails(p: Parser, words: seq<Word>, q: Parser, d: Diag)
    requires Inv(p) && LoopDone(p, words, q)
    ensures IfFailed(p, words, SaveResult(IfErr(q, d).p, true))
  {
  }

  lemma {:induction false} ErrsInLoop(p: Parser, words: seq<Word>, o: Oracle)
    requires Inv(p) && LoopBad(p, words)
    ensures var r := ParseCommand(p, words, o); r.diag != Fine && LoopFailed(p, r.p)
  {
    LoopErrs(p, words);
    LoopFails(p, LoopStep(p, words).diag);
  }

  lemma {:induction false} ErrsInIf(p: Parser, words: seq<Word>, o: Oracle)
    requires Inv(p) && !LoopBad(p, words)
    ensures var r := ParseCommand(p, words, o);
            (r.diag != Fine <==> IfBad(p, Left(words))) && (IfBad(p, Left(words)) ==> IfFailed(p, words, r.p))
  {
    var l := LoopStep(p, words);
    LoopErrs(p, words);
    IfErrs(l.p, l.words);
    IfFails(p, words, l.p, ItefStep(l.p, l.words).diag);
  }

  /** Exactly these lines are errors. */
  lemma {:induction false} ErrsExact(p: Parser, words: seq<Word>, o: Oracle)
    requires Inv(p)
    ensures var r := ParseCommand(p, words, o);
            && (r.diag != Fine <==> LoopBad(p, words) || IfBad(p, Left(words)))
            && (LoopBad(p, words) ==> LoopFailed(p, r.p))
            && (!LoopBad(p, words) && IfBad(p, Left(words)) ==> IfFailed(p, words, r.p))
  {
    if LoopBad(p, words) {
      ErrsInLoop(p, words, o);
    } else {
      ErrsInIf(p, words, o);
    }
  }

  /** `done` leaves its loop, and goes back to the line of the condition exactly when the loop is to go on. */
  lemma {:induction false} DoneGoesBack(p: Parser, o: Oracle)
    requires Inv(p) && LoopTop(p).state == LDo
    ensures var q, e := ParseCommand(p, [Done], o).p, LoopTop(p);
            && p.lpndx > 0 && q.lpndx == p.lpndx - 1 && q.history == p.history && q.fail == p.fail
            && q.ie == p.ie && q.iendx == p.iendx
            && (if e.enable then q.pos == e.topoffs && q.jump else q.pos == p.pos && q.jump == p.jump)
  {
    assert [Done][1..] == [];
  }
}
