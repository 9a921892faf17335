/**
 Scripts as trees: their lines, the structured meaning that the shell promises, and the
 meaning that the line-by-line machine gives them.
 */
module NshTree {
  import opened Basics
  import opened NshMachine
  import opened NshStacks

  datatype Stmt =
    | Simple(c: Command)
    | BreakStmt
    | IfStmt(inv: bool, c: Command, thn: Block, hasElse: bool, els: Block)
    | LoopStmt(until: bool, c: Command, body: Block)

  datatype Block = Nil | Cons(s: Stmt, rest: Block)

  /** How a statement or block ended: with the commands run so far, `$?`, and whether the rest of the
      enclosing loop body is off because `break` ran; or not within the rounds allowed; or, on the
      machine, with a `break` inside an if, in a loop that stands in another loop or does not. */
  datatype Outcome =
    | Ended(history: seq<Event>, fail: bool, off: bool)
    | Timeout(history: seq<Event>)
    | Lost(history: seq<Event>, nested: bool)

  // ----- the lines of a script -----

  function StmtLines(s: Stmt): seq<Line>
    decreases s, 0
  {
    match s
    case Simple(c) => [CmdLine(c)]
    case BreakStmt => [BreakLine]
    case IfStmt(inv, c, thn, hasElse, els) => [IfLine(inv, c), ThenLine] + (Lines(thn) + Tail(hasElse, els))
    case LoopStmt(until, c, body) => [LoopLine(until, c), DoLine] + (Lines(body) + [DoneLine])
  }

  function Tail(hasElse: bool, els: Block): seq<Line>
    decreases els, 1
  {
    if hasElse then [ElseLine] + (Lines(els) + [FiLine]) else [FiLine]
  }

  function Lines(b: Block): seq<Line>
    decreases b, 0
  {
    match b
    case Nil => []
    case Cons(s, rest) => StmtLines(s) + Lines(rest)
  }

  // ----- the structured meaning -----

  /** The structured meaning of a statement: a condition leaves `$?` at success, `break` ends the
      innermost loop at once and does nothing outside loops. At most n rounds per loop. */
  function Exec(s: Stmt, o: Oracle, h: seq<Event>, fail: bool, inLoop: bool, n: nat): Outcome
    decreases n, s
  {
    match s
    case Simple(c) =>
      var h' := h + [Event(c, fail)];
      Ended(h', o(h'), false)
    case BreakStmt =>
      Ended(h + [Event([Break], fail)], false, inLoop)
    case IfStmt(inv, c, thn, hasElse, els) =>
      var h' := h + [Event(c, fail)];
      if o(h') == inv then ExecBlock(thn, o, h', false, inLoop, n)
      else if hasElse then ExecBlock(els, o, h', false, inLoop, n)
      else Ended(h', false, false)
    case LoopStmt(until, c, body) =>
      if n == 0 then Timeout(h)
      else
        var h' := h + [Event(c, fail)];
        if o(h') != until then Ended(h', false, false)
        else
          match ExecBlock(body, o, h', false, true, n)
          case Ended(h1, f1, broke) =>
            if broke then Ended(h1, f1, false) else Exec(s, o, h1, f1, inLoop, n - 1)
          case other => other
  }

  function ExecBlock(b: Block, o: Oracle, h: seq<Event>, fail: bool, inLoop: bool, n: nat): Outcome
    decreases n, b
  {
    match b
    case Nil => Ended(h, fail, false)
    case Cons(s, rest) =>
      match Exec(s, o, h, fail, inLoop, n)
      case Ended(h1, f1, broke) =>
        if broke then Ended(h1, f1, true) else ExecBlock(rest, o, h1, f1, inLoop, n)
      case other => other
  }

  /** The structured meaning never loses its place. */
  lemma {:induction false} NeverLost(b: Block, o: Oracle, h: seq<Event>, fail: bool, inLoop: bool, n: nat)
    ensures !ExecBlock(b, o, h, fail, inLoop, n).Lost?
    decreases n, b, 0
  {
    match b
    case Nil =>
    case Cons(s, rest) =>
      StmtNeverLost(s, o, h, fail, inLoop, n);
      var r := Exec(s, o, h, fail, inLoop, n);
      if r.Ended? {
        NeverLost(rest, o, r.history, r.fail, inLoop, n);
      }
  }

  lemma {:induction false} StmtNeverLost(s: Stmt, o: Oracle, h: seq<Event>, fail: bool, inLoop: bool, n: nat)
    ensures !Exec(s, o, h, fail, inLoop, n).Lost?
    decreases n, s, 1
  {
    match s
    case Simple(_) | BreakStmt =>
    case IfStmt(_, c, thn, _, els) =>
      NeverLost(thn, o, h + [Event(c, fail)], false, inLoop, n);
      NeverLost(els, o, h + [Event(c, fail)], false, inLoop, n);
    case LoopStmt(_, c, body) =>
      if n > 0 {
        var h' := h + [Event(c, fail)];
        NeverLost(body, o, h', false, true, n);
        var r := ExecBlock(body, o, h', false, true, n);
        if r.Ended? {
          StmtNeverLost(s, o, r.history, r.fail, inLoop, n - 1);
        }
      }
  }

  // ----- what the machine makes of it -----

  /** What the machine makes of a statement with ld loops around it. It reads every line of a loop body
      even when the body is off, and it then skips commands and ifs but not a loop that stands
      directly in that body. A `break` inside an if of its loop takes that if off the stack, and from
      there on the machine has lost its place in the text. */
  function Flat(s: Stmt, o: Oracle, h: seq<Event>, fail: bool, off: bool, ld: nat, inIf: bool, n: nat): Outcome
    decreases n, s
  {
    match s
    case Simple(c) =>
      if off then Ended(h, fail, off)
      else
        var h' := h + [Event(c, fail)];
        Ended(h', o(h'), false)
    case BreakStmt =>
      if off then Ended(h, fail, off)
      else if inIf then Lost(h, ld > 1)
      else Ended(h + [Event([Break], fail)], false, ld > 0)
    case IfStmt(inv, c, thn, hasElse, els) =>
      if off then Ended(h, fail, off)
      else
        var h' := h + [Event(c, fail)];
        if o(h') == inv then FlatBlock(thn, o, h', false, false, ld, ld > 0, n)
        else if hasElse then FlatBlock(els, o, h', false, false, ld, ld > 0, n)
        else Ended(h', false, false)
    case LoopStmt(until, c, body) =>
      if n == 0 then Timeout(h)
      else
        var h' := h + [Event(c, fail)];
        match FlatBlock(body, o, h', false, o(h') != until, ld + 1, false, n)
        case Ended(h1, f1, broke) =>
          if broke then Ended(h1, f1, off) else Flat(s, o, h1, f1, off, ld, inIf, n - 1)
        case other => other
  }

  function FlatBlock(b: Block, o: Oracle, h: seq<Event>, fail: bool, off: bool, ld: nat, inIf: bool, n: nat): Outcome
    decreases n, b
  {
    match b
    case Nil => Ended(h, fail, off)
    case Cons(s, rest) =>
      match Flat(s, o, h, fail, off, ld, inIf, n)
      case Ended(h1, f1, off1) => FlatBlock(rest, o, h1, f1, off1, ld, inIf, n)
      case other => other
  }

  /** Once the body is off it stays off; and only a body is off, not the inside of an if. */
  lemma {:induction false} OffStays(b: Block, o: Oracle, h: seq<Event>, fail: bool, off: bool, ld: nat, inIf: bool, n: nat)
    requires FlatBlock(b, o, h, fail, off, ld, inIf, n).Ended?
    ensures var r := FlatBlock(b, o, h, fail, off, ld, inIf, n);
            (off ==> r.off) && (r.off && !off ==> ld > 0 && !inIf)
    decreases n, b, 0
  {
    match b
    case Nil =>
    case Cons(s, rest) =>
      StmtOffStays(s, o, h, fail, off, ld, inIf, n);
      var r := Flat(s, o, h, fail, off, ld, inIf, n);
      OffStays(rest, o, r.history, r.fail, r.off, ld, inIf, n);
  }

  lemma {:induction false} StmtOffStays(s: Stmt, o: Oracle, h: seq<Event>, fail: bool, off: bool, ld: nat, inIf: bool, n: nat)
    requires Flat(s, o, h, fail, off, ld, inIf, n).Ended?
    ensures var r := Flat(s, o, h, fail, off, ld, inIf, n);
            (off ==> r.off) && (r.off && !off ==> ld > 0 && !inIf && s.BreakStmt?)
    decreases n, s, 1
  {
    match s
    case Simple(_) | BreakStmt =>
    case IfStmt(inv, c, thn, hasElse, els) =>
      if !off {
        var h' := h + [Event(c, fail)];
        if o(h') == inv {
          OffStays(thn, o, h', false, false, ld, ld > 0, n);
        } else if hasElse {
          OffStays(els, o, h', false, false, ld, ld > 0, n);
        }
      }
    case LoopStmt(until, c, body) =>
      var h' := h + [Event(c, fail)];
      var r := FlatBlock(body, o, h', false, o(h') != until, ld + 1, false, n);
      if !r.off {
        StmtOffStays(s, o, r.history, r.fail, off, ld, inIf, n - 1);
      }
  }

  // ----- which scripts fit -----

  /** The script fits the nesting limit n below d ifs and ld loops. */
  predicate Fits(b: Block, d: nat, ld: nat, n: nat) {
    match b
    case Nil => true
    case Cons(s, rest) => FitsStmt(s, d, ld, n) && Fits(rest, d, ld, n)
  }

  predicate FitsStmt(s: Stmt, d: nat, ld: nat, n: nat) {
    match s
    case Simple(_) | BreakStmt => true
    case IfStmt(_, _, thn, _, els) => d + 1 < n && Fits(thn, d + 1, ld, n) && Fits(els, d + 1, ld, n)
    case LoopStmt(_, _, body) => ld + 1 < n && Fits(body, d, ld + 1, n)
  }
}
