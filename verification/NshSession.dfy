/**
 The parser state as the session keeps it, updated in place: two arrays with an index into each.
 Every method is proved to do what the machine's step does.
 */
module NshSession {
  import opened NshMachine

  lemma {:induction false} StepIs(r: Reader, p: Parser, q: Parser)
    requires Reads(r) && Inv(p) && p.pos < |r.script| && q == ReadLine(p)
    ensures Inv(q) && r.step(p) == NshMachine.ParseCommand(q, r.script[p.pos], r.o).p
  {
    assert LooksAt(p);
  }

  class Session {
    var fail: bool
    var jump: bool
    var inScript: bool
    var foffs: int
    var pos: nat
    var lpndx: nat
    var iendx: nat
    const lp: array<LoopEntry>
    const ie: array<IfEntry>
    var history: seq<Event>

    ghost function Now(): Parser
      reads this, lp, ie
    {
      Parser(fail, jump, inScript, foffs, pos, lpndx, iendx, lp[..], ie[..], history)
    }

    ghost predicate Valid()
      reads this, lp, ie
    {
      Inv(Now())
    }

    constructor (depth: nat)
      requires 1 <= depth <= 256
      ensures Valid() && fresh(lp) && fresh(ie) && lp.Length == depth
      ensures Now() == Parser(false, false, false, -1, 0, 0, 0,
                              seq(depth, i => LoopEntry(LNormal, false, 0, 0)), seq(depth, i => ResetIf), [])
    {
      fail, jump, inScript, foffs, pos, lpndx, iendx, history := false, false, false, -1, 0, 0, 0, [];
      lp := new LoopEntry[depth](i => LoopEntry(LNormal, false, 0, 0));
      ie := new IfEntry[depth](i => ResetIf);
      new;
      assert lp[..] == seq(depth, i => LoopEntry(LNormal, false, 0, 0));
      assert ie[..] == seq(depth, i => ResetIf);
    }

    method SaveResult(result: bool)
      requires Valid()
      modifies this, lp, ie
      ensures Valid() && Now() == NshMachine.SaveResult(old(Now()), result)
    {
      if lp[lpndx].state == LWhile {
        fail := false;
        lp[lpndx] := lp[lpndx].(enable := !result);
      } else if lp[lpndx].state == LUntil {
        fail := false;
        lp[lpndx] := lp[lpndx].(enable := result);
      } else if ie[iendx].state == IIf {
        fail := false;
        ie[iendx] := ie[iendx].(ifcond := ie[iendx].inverted != result);
      } else {
        fail := result;
      }
    }

    method Enabled() returns (b: bool)
      requires Valid()
      ensures b == CmdEnabled(Now())
    {
      b := LoopOn(lp[lpndx]) && IfOn(ie[iendx]);
    }

    method ResetLoops()
      requires Valid()
      modifies this, lp
      ensures Valid() && forall d :: Now() == LoopErr(old(Now()), d).p
    {
      jump, lpndx := false, 0;
      lp[0] := LoopEntry(LNormal, true, lp[0].iendx, 0);
    }

    /** while and until. */
    method BeginLoop(words: seq<Word>) returns (rest: seq<Word>, diag: Diag)
      requires Valid() && words != [] && (words[0] == While || words[0] == Until)
      modifies this, lp
      ensures Valid() && Parsed(Now(), rest, diag) == LoopStep(old(Now()), words)
    {
      rest, diag := words[1..], Fine;
      if MissingWord(rest) {
        diag := ArgInvalid;
      } else if ie[iendx].state == IIf || Awaiting(lp[lpndx]) || !inScript || foffs < 0 {
        diag := BadContext;
      } else if lpndx >= lp.Length - 1 {
        diag := DeepNesting;
      } else {
        var e := LoopEntry(if words[0] == While then LWhile else LUntil, false, iendx, foffs);
        var enable := Enabled();
        jump, lpndx := false, lpndx + 1;
        lp[lpndx] := e.(enable := enable);
        assert lp[..] == old(lp[..])[lpndx := e.(enable := enable)];
        return;
      }
      rest := [];
      ResetLoops();
    }

    /** done: back to the top of the loop, or past it. */
    method EndLoop(words: seq<Word>) returns (rest: seq<Word>, diag: Diag)
      requires Valid() && words != [] && words[0] == Done
      modifies this, lp
      ensures Valid() && Parsed(Now(), rest, diag) == LoopStep(old(Now()), words)
    {
      rest, diag := words[1..], Fine;
      var top := lp[lpndx];
      if rest != [] {
        diag := ArgInvalid;
      } else if top.state != LDo {
        diag := BadContext;
      } else if lpndx < 1 {
        diag := Internal;
      } else {
        if top.enable {
          pos, jump := top.topoffs, true;
        }
        lp[lpndx] := top.(state := LNormal, enable := true);
        assert lp[..] == old(lp[..])[lpndx := top.(state := LNormal, enable := true)];
        lpndx := lpndx - 1;
        return;
      }
      rest := [];
      ResetLoops();
    }

    method Loop(words: seq<Word>) returns (rest: seq<Word>, diag: Diag)
      requires Valid()
      modifies this, lp
      ensures Valid() && Parsed(Now(), rest, diag) == LoopStep(old(Now()), words)
    {
      rest, diag := words, Fine;
      if words != [] && (words[0] == While || words[0] == Until) {
        rest, diag := BeginLoop(words);
      } else if words != [] && words[0] == Do && Awaiting(lp[lpndx]) {
        lp[lpndx] := lp[lpndx].(state := LDo);
        assert lp[..] == old(lp[..])[lpndx := old(lp[lpndx]).(state := LDo)];
        rest := words[1..];
      } else if words != [] && words[0] == Done {
        rest, diag := EndLoop(words);
      } else if words != [] && (words[0] == Do || Awaiting(lp[lpndx])) {
        rest, diag := [], BadContext;
        ResetLoops();
      }
    }

    method ResetIfs()
      requires Valid()
      modifies this, ie
      ensures Valid() && forall d :: Now() == IfErr(old(Now()), d).p
    {
      iendx := 0;
      ie[0] := ResetIf;
    }

    /** if, with or without `!`. */
    method BeginIf(words: seq<Word>) returns (rest: seq<Word>, diag: Diag)
      requires Valid() && words != [] && words[0] == If
      modifies this, ie
      ensures Valid() && Parsed(Now(), rest, diag) == ItefStep(old(Now()), words)
    {
      rest, diag := words[1..], Fine;
      var inverted := !MissingWord(rest) && rest[0] == Bang;
      if inverted {
        rest := rest[1..];
      }
      if MissingWord(rest) {
        diag := ArgInvalid;
      } else if ie[iendx].state == IIf {
        diag := BadContext;
      } else if iendx >= ie.Length - 1 {
        diag := DeepNesting;
      } else {
        var enabled := Enabled();
        iendx := iendx + 1;
        ie[iendx] := IfEntry(IIf, !enabled, false, inverted);
        assert ie[..] == old(ie[..])[iendx := IfEntry(IIf, !enabled, false, inverted)];
        return;
      }
      rest := [];
      ResetIfs();
    }

    /** then and else: on to the next part of the if. */
    method NextPart(words: seq<Word>) returns (rest: seq<Word>, diag: Diag)
      requires Valid() && words != [] && (words[0] == Then || words[0] == Else)
      modifies this, ie
      ensures Valid() && Parsed(Now(), rest, diag) == ItefStep(old(Now()), words)
    {
      var now, next := if words[0] == Then then IIf else IThen, if words[0] == Then then IThen else IElse;
      if ie[iendx].state != now {
        rest, diag := [], BadContext;
        ResetIfs();
      } else {
        ie[iendx] := ie[iendx].(state := next);
        assert ie[..] == old(ie[..])[iendx := old(ie[iendx]).(state := next)];
        rest, diag := words[1..], Fine;
      }
    }

    /** fi. */
    method EndIf(words: seq<Word>) returns (rest: seq<Word>, diag: Diag)
      requires Valid() && words != [] && words[0] == Fi
      modifies this, ie
      ensures Valid() && Parsed(Now(), rest, diag) == ItefStep(old(Now()), words)
    {
      rest, diag := words[1..], Fine;
      if rest != [] {
        diag := ArgInvalid;
      } else if ie[iendx].state != IThen && ie[iendx].state != IElse {
        diag := BadContext;
      } else if iendx < 1 {
        diag := Internal;
      } else {
        iendx := iendx - 1;
        return;
      }
      rest := [];
      ResetIfs();
    }

    method Itef(words: seq<Word>) returns (rest: seq<Word>, diag: Diag)
      requires Valid()
      modifies this, ie
      ensures Valid() && Parsed(Now(), rest, diag) == ItefStep(old(Now()), words)
    {
      rest, diag := words, Fine;
      if words != [] && words[0] == If {
        rest, diag := BeginIf(words);
      } else if words != [] && (words[0] == Then || words[0] == Else) {
        rest, diag := NextPart(words);
      } else if words != [] && words[0] == Fi {
        rest, diag := EndIf(words);
      } else if words != [] && ie[iendx].state == IIf {
        rest, diag := [], BadContext;
        ResetIfs();
      }
    }

    method CmdBreak()
      requires Valid()
      modifies this, lp
      ensures Valid() && Now() == NshMachine.CmdBreak(old(Now()))
    {
      if lp[lpndx].state == LDo {
        iendx := lp[lpndx].iendx;
        lp[lpndx] := lp[lpndx].(enable := false);
        assert lp[..] == old(lp[..])[lpndx := old(lp[lpndx]).(enable := false)];
      }
    }

    method Execute(words: seq<Word>, o: Oracle)
      requires Valid() && words != []
      modifies this, lp, ie
      ensures Valid() && Now() == NshMachine.Execute(old(Now()), words, o)
    {
      history := history + [Event(words, fail)];
      if words[0] == Break {
        CmdBreak();
        SaveResult(false);
      } else {
        SaveResult(o(history));
      }
    }

    /** One command line. */
    method ParseCommand(words: seq<Word>, o: Oracle) returns (diag: Diag)
      requires Valid()
      modifies this, lp, ie
      ensures Valid() && Now() == NshMachine.ParseCommand(old(Now()), words, o).p
      ensures diag == NshMachine.ParseCommand(old(Now()), words, o).diag && diag != Internal
    {
      var rest;
      rest, diag := Loop(words);
      if diag == Fine {
        rest, diag := Itef(rest);
      }
      if diag != Fine {
        SaveResult(true);
      } else if rest != [] {
        var enabled := Enabled();
        if enabled {
          Execute(rest, o);
        }
      }
    }

    /** Reads the line at the file position and handles it. */
    method ReadOne(script: seq<seq<Word>>, o: Oracle, ghost r: Reader)
      requires Valid() && pos < |script| && Reads(r) && r.script == script && r.o == o
      modifies this, lp, ie
      ensures Valid() && Now() == r.step(old(Now()))
    {
      var line := script[pos];
      StepIs(r, Now(), ReadLine(Now()));
      foffs, pos, jump := pos, pos + 1, false;
      assert Now() == ReadLine(old(Now()));
      var _ := ParseCommand(line, o);
    }

    /** The line loop of a script, for at most k lines. */
    method RunLines(script: seq<seq<Word>>, o: Oracle, k: nat, ghost r: Reader)
      requires Valid() && Reads(r) && r.script == script && r.o == o
      modifies this, lp, ie
      ensures Valid() && Now() == Run(r, old(Now()), k)
    {
      var i := k;
      while 0 < i && pos < |script|
        invariant Valid()
        invariant Run(r, Now(), i) == Run(r, old(Now()), k)
      {
        ReadOne(script, o, r);
        i := i - 1;
      }
    }
  }
}
