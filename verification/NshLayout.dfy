/**
 The text of a script: where its parts stand, and how many ifs and which loops are around each line.
 */
module NshLayout {
  import opened Basics
  import opened NshStacks
  import opened NshTree

  /** The lines stand in the script at the position. */
  ghost predicate At(ls: seq<Line>, pos: nat, part: seq<Line>) {
    pos + |part| <= |ls| && ls[pos..pos + |part|] == part
  }

  lemma {:induction false} AtSplit(ls: seq<Line>, pos: nat, a: seq<Line>, b: seq<Line>)
    requires At(ls, pos, a + b)
    ensures At(ls, pos, a) && At(ls, pos + |a|, b)
    ensures a != [] ==> ls[pos] == a[0]
  {
    var m := ls[pos..pos + |a + b|];
    assert m[..|a|] == a && m[|a|..] == b;
  }

  lemma {:induction false} AtOne(ls: seq<Line>, pos: nat, l: Line)
    requires At(ls, pos, [l])
    ensures pos < |ls| && ls[pos] == l
  {
    assert ls[pos] == ls[pos..pos + 1][0];
  }

  lemma {:induction false} AtTwo(ls: seq<Line>, pos: nat, l: Line, m: Line)
    requires At(ls, pos, [l, m])
    ensures pos + 1 < |ls| && ls[pos] == l && ls[pos + 1] == m
  {
    assert ls[pos] == ls[pos..pos + 2][0] && ls[pos + 1] == ls[pos..pos + 2][1];
  }

  /** Where the parts of an if and of a loop stand. */
  lemma {:induction false} IfAt(ls: seq<Line>, pos: nat, x: Stmt)
    requires x.IfStmt? && At(ls, pos, StmtLines(x))
    ensures pos + 1 < |ls| && ls[pos] == IfLine(x.inv, x.c) && ls[pos + 1] == ThenLine
    ensures At(ls, pos + 2, Lines(x.thn)) && At(ls, pos + 2 + |Lines(x.thn)|, Tail(x.hasElse, x.els))
    ensures |StmtLines(x)| == 2 + |Lines(x.thn)| + |Tail(x.hasElse, x.els)|
  {
    AtSplit(ls, pos, [IfLine(x.inv, x.c), ThenLine], Lines(x.thn) + Tail(x.hasElse, x.els));
    AtTwo(ls, pos, IfLine(x.inv, x.c), ThenLine);
    AtSplit(ls, pos + 2, Lines(x.thn), Tail(x.hasElse, x.els));
  }

  lemma {:induction false} ElseAt(ls: seq<Line>, pos: nat, els: Block)
    requires At(ls, pos, Tail(true, els))
    ensures pos < |ls| && ls[pos] == ElseLine && At(ls, pos + 1, Lines(els))
    ensures |Tail(true, els)| == 2 + |Lines(els)|
    ensures pos + 1 + |Lines(els)| < |ls| && ls[pos + 1 + |Lines(els)|] == FiLine
  {
    AtSplit(ls, pos, [ElseLine], Lines(els) + [FiLine]);
    AtOne(ls, pos, ElseLine);
    AtSplit(ls, pos + 1, Lines(els), [FiLine]);
    AtOne(ls, pos + 1 + |Lines(els)|, FiLine);
  }

  lemma {:induction false} LoopAt(ls: seq<Line>, pos: nat, x: Stmt)
    requires x.LoopStmt? && At(ls, pos, StmtLines(x))
    ensures pos + 1 < |ls| && ls[pos] == LoopLine(x.until, x.c) && ls[pos + 1] == DoLine
    ensures At(ls, pos + 2, Lines(x.body)) && |StmtLines(x)| == 3 + |Lines(x.body)|
    ensures pos + 2 + |Lines(x.body)| < |ls| && ls[pos + 2 + |Lines(x.body)|] == DoneLine
  {
    AtSplit(ls, pos, [LoopLine(x.until, x.c), DoLine], Lines(x.body) + [DoneLine]);
    AtTwo(ls, pos, LoopLine(x.until, x.c), DoLine);
    AtSplit(ls, pos + 2, Lines(x.body), [DoneLine]);
    AtOne(ls, pos + 2 + |Lines(x.body)|, DoneLine);
  }

  // ----- what is around a line -----

  /** The number of ifs, and the first lines of the loops, around a line. */
  datatype Mark = Mark(ifs: nat, heads: seq<nat>)

  function Pass(m: Mark, l: Line, i: nat): Mark {
    match l
    case IfLine(_, _) => m.(ifs := m.ifs + 1)
    case FiLine => if m.ifs > 0 then m.(ifs := m.ifs - 1) else m
    case LoopLine(_, _) => m.(heads := m.heads + [i])
    case DoneLine => if m.heads != [] then m.(heads := m.heads[..|m.heads| - 1]) else m
    case _ => m
  }

  /** The marks of the lines of a script, one more than lines. They are a value, so that texts are reasoned
      about without looking into it; `Here` says where to look. */
  predicate Here(i: nat) {
    true
  }

  ghost predicate Marks(ls: seq<Line>, ms: seq<Mark>) {
    && |ms| == |ls| + 1 && ms[0] == Mark(0, [])
    && forall i: nat {:trigger Here(i)} :: Here(i) && i < |ls| ==> ms[i + 1] == Pass(ms[i], ls[i], i)
  }

  function MarksTo(ls: seq<Line>, n: nat): (ms: seq<Mark>)
    requires n <= |ls|
    ensures |ms| == n + 1 && ms[0] == Mark(0, [])
    ensures forall i :: 0 <= i < n ==> ms[i + 1] == Pass(ms[i], ls[i], i)
  {
    if n == 0 then [Mark(0, [])]
    else
      var ms := MarksTo(ls, n - 1);
      ms + [Pass(ms[n - 1], ls[n - 1], n - 1)]
  }

  ghost function MarksOf(ls: seq<Line>): (ms: seq<Mark>)
    ensures Marks(ls, ms)
  {
    MarksTo(ls, |ls|)
  }

  lemma {:induction false} NextMark(ls: seq<Line>, ms: seq<Mark>, i: nat)
    requires Marks(ls, ms) && i < |ls|
    ensures ms[i + 1] == Pass(ms[i], ls[i], i)
  {
    assert Here(i);
  }

  /** Behind a block the same is around as before it. */
  lemma {:induction false} BlockMark(ls: seq<Line>, ms: seq<Mark>, pos: nat, b: Block)
    requires Marks(ls, ms) && At(ls, pos, Lines(b))
    ensures ms[pos + |Lines(b)|] == ms[pos]
    decreases b, 0
  {
    match b
    case Nil =>
    case Cons(s, rest) =>
      AtSplit(ls, pos, StmtLines(s), Lines(rest));
      StmtMark(ls, ms, pos, s);
      BlockMark(ls, ms, pos + |StmtLines(s)|, rest);
  }

  lemma {:induction false} StmtMark(ls: seq<Line>, ms: seq<Mark>, pos: nat, s: Stmt)
    requires Marks(ls, ms) && At(ls, pos, StmtLines(s))
    ensures ms[pos + |StmtLines(s)|] == ms[pos]
    decreases s, 1
  {
    match s
    case Simple(c) =>
      AtOne(ls, pos, CmdLine(c));
      NextMark(ls, ms, pos);
    case BreakStmt =>
      AtOne(ls, pos, BreakLine);
      NextMark(ls, ms, pos);
    case IfStmt(_, _, _, _, _) =>
      WholeIf(ls, ms, pos, s);
    case LoopStmt(_, _, _) =>
      WholeLoop(ls, ms, pos, s);
  }

  lemma {:induction false} WholeIf(ls: seq<Line>, ms: seq<Mark>, pos: nat, s: Stmt)
    requires Marks(ls, ms) && s.IfStmt? && At(ls, pos, StmtLines(s))
    ensures ms[pos + |StmtLines(s)|] == ms[pos]
    decreases s, 0
  {
    IfMark(ls, ms, pos, s);
    BlockMark(ls, ms, pos + 2, s.thn);
    TailMark(ls, ms, pos + 2 + |Lines(s.thn)|, s.hasElse, s.els);
  }

  lemma {:induction false} WholeLoop(ls: seq<Line>, ms: seq<Mark>, pos: nat, s: Stmt)
    requires Marks(ls, ms) && s.LoopStmt? && At(ls, pos, StmtLines(s))
    ensures ms[pos + |StmtLines(s)|] == ms[pos]
    decreases s, 0
  {
    LoopMark(ls, ms, pos, s);
    BlockMark(ls, ms, pos + 2, s.body);
    NextMark(ls, ms, pos + 2 + |Lines(s.body)|);
    PassDone(ms[pos], pos);
  }

  lemma {:induction false} PassDone(m: Mark, i: nat)
    ensures forall j :: Pass(m.(heads := m.heads + [i]), DoneLine, j) == m
  {
  }

  lemma {:induction false} IfMark(ls: seq<Line>, ms: seq<Mark>, pos: nat, s: Stmt)
    requires Marks(ls, ms) && s.IfStmt? && At(ls, pos, StmtLines(s))
    ensures pos + 1 < |ls| && ls[pos].IfLine? && ls[pos + 1].ThenLine?
    ensures At(ls, pos + 2, Lines(s.thn)) && At(ls, pos + 2 + |Lines(s.thn)|, Tail(s.hasElse, s.els))
    ensures |StmtLines(s)| == 2 + |Lines(s.thn)| + |Tail(s.hasElse, s.els)|
    ensures var m := ms[pos];
            ms[pos + 1] == m.(ifs := m.ifs + 1) && ms[pos + 2] == m.(ifs := m.ifs + 1)
  {
    IfAt(ls, pos, s);
    NextMark(ls, ms, pos);
    NextMark(ls, ms, pos + 1);
  }

  lemma {:induction false} LoopMark(ls: seq<Line>, ms: seq<Mark>, pos: nat, s: Stmt)
    requires Marks(ls, ms) && s.LoopStmt? && At(ls, pos, StmtLines(s))
    ensures pos + 1 < |ls| && ls[pos].LoopLine? && ls[pos + 1].DoLine?
    ensures At(ls, pos + 2, Lines(s.body)) && |StmtLines(s)| == 3 + |Lines(s.body)|
    ensures pos + 2 + |Lines(s.body)| < |ls| && ls[pos + 2 + |Lines(s.body)|].DoneLine?
    ensures var m := ms[pos];
            && ms[pos + 1] == m.(heads := m.heads + [pos])
            && ms[pos + 2] == m.(heads := m.heads + [pos])
  {
    LoopAt(ls, pos, s);
    NextMark(ls, ms, pos);
    NextMark(ls, ms, pos + 1);
  }

  /** The end of an if: the else part, if there is one, and the fi. */
  lemma {:induction false} TailMark(ls: seq<Line>, ms: seq<Mark>, pos: nat, hasElse: bool, els: Block)
    requires Marks(ls, ms) && At(ls, pos, Tail(hasElse, els)) && ms[pos].ifs > 0
    ensures var m := ms[pos]; ms[pos + |Tail(hasElse, els)|] == m.(ifs := m.ifs - 1)
    decreases els, 2
  {
    if hasElse {
      ElseMark(ls, ms, pos, els);
      BlockMark(ls, ms, pos + 1, els);
      NextMark(ls, ms, pos + 1 + |Lines(els)|);
    } else {
      AtOne(ls, pos, FiLine);
      NextMark(ls, ms, pos);
    }
  }

  lemma {:induction false} ElseMark(ls: seq<Line>, ms: seq<Mark>, pos: nat, els: Block)
    requires Marks(ls, ms) && At(ls, pos, Tail(true, els))
    ensures pos < |ls| && ls[pos].ElseLine? && At(ls, pos + 1, Lines(els)) && |Tail(true, els)| == 2 + |Lines(els)|
    ensures pos + 1 + |Lines(els)| < |ls| && ls[pos + 1 + |Lines(els)|].FiLine?
    ensures ms[pos + 1] == ms[pos]
  {
    ElseAt(ls, pos, els);
    NextMark(ls, ms, pos);
  }

  // ----- texts in order -----

  /** The innermost loop around a line begins before it, below no more ifs, inside the other loops. */
  ghost predicate Headed(ls: seq<Line>, ms: seq<Mark>, i: nat)
    requires i <= |ls| && |ms| == |ls| + 1
  {
    var m := ms[i];
    m.heads != [] ==>
      var h := m.heads[|m.heads| - 1];
      h < i && ls[h].LoopLine? && ms[h].ifs <= m.ifs && ms[h].heads == m.heads[..|m.heads| - 1]
  }

  /** A line stands where it can: fi inside an if, done at the end of a loop body, and then and do right
      behind their if and loop. */
  ghost predicate Ordered(ls: seq<Line>, ms: seq<Mark>, i: nat)
    requires i < |ls| && |ms| == |ls| + 1
  {
    var m := ms[i];
    && Headed(ls, ms, i)
    && (ls[i].FiLine? ==> m.ifs > 0)
    && (ls[i].DoneLine? ==> m.heads != [] && m.heads[|m.heads| - 1] < |ls| && ms[m.heads[|m.heads| - 1]].ifs == m.ifs)
    && (ls[i].IfLine? ==> i + 1 < |ls| && ls[i + 1].ThenLine?)
    && (ls[i].LoopLine? ==> i + 1 < |ls| && ls[i + 1].DoLine?)
  }

  ghost predicate OrderedTo(ls: seq<Line>, ms: seq<Mark>, i: nat, j: nat)
    requires |ms| == |ls| + 1
  {
    i <= j <= |ls| && forall k :: i <= k < j ==> Ordered(ls, ms, k)
  }

  lemma {:induction false} BlockOrdered(ls: seq<Line>, ms: seq<Mark>, pos: nat, b: Block)
    requires Marks(ls, ms) && At(ls, pos, Lines(b)) && Headed(ls, ms, pos)
    ensures OrderedTo(ls, ms, pos, pos + |Lines(b)|)
    decreases b, 0
  {
    match b
    case Nil =>
    case Cons(s, rest) =>
      AtSplit(ls, pos, StmtLines(s), Lines(rest));
      StmtOrdered(ls, ms, pos, s);
      StmtMark(ls, ms, pos, s);
      BlockOrdered(ls, ms, pos + |StmtLines(s)|, rest);
  }

  lemma {:induction false} StmtOrdered(ls: seq<Line>, ms: seq<Mark>, pos: nat, s: Stmt)
    requires Marks(ls, ms) && At(ls, pos, StmtLines(s)) && Headed(ls, ms, pos)
    ensures OrderedTo(ls, ms, pos, pos + |StmtLines(s)|)
    decreases s, 2
  {
    match s
    case Simple(c) =>
      AtOne(ls, pos, CmdLine(c));
      LineOrdered(ls, ms, pos);
    case BreakStmt =>
      AtOne(ls, pos, BreakLine);
      LineOrdered(ls, ms, pos);
    case IfStmt(_, _, _, _, _) =>
      IfOrdered(ls, ms, pos, s);
    case LoopStmt(_, _, _) =>
      LoopOrdered(ls, ms, pos, s);
  }

  lemma {:induction false} IfOrdered(ls: seq<Line>, ms: seq<Mark>, pos: nat, s: Stmt)
    requires Marks(ls, ms) && s.IfStmt? && At(ls, pos, StmtLines(s)) && Headed(ls, ms, pos)
    ensures OrderedTo(ls, ms, pos, pos + |StmtLines(s)|)
    decreases s, 1
  {
    IfMark(ls, ms, pos, s);
    var tail := pos + 2 + |Lines(s.thn)|;
    InsideIf(ls, ms, pos);
    ThenOrdered(ls, ms, pos + 2, s);
    Joined(ls, ms, pos, pos + 2, tail + |Tail(s.hasElse, s.els)|);
  }

  lemma {:induction false} ThenOrdered(ls: seq<Line>, ms: seq<Mark>, pos: nat, s: Stmt)
    requires Marks(ls, ms) && s.IfStmt? && At(ls, pos, Lines(s.thn)) && At(ls, pos + |Lines(s.thn)|, Tail(s.hasElse, s.els))
    requires Headed(ls, ms, pos) && ms[pos].ifs > 0
    ensures OrderedTo(ls, ms, pos, pos + |Lines(s.thn)| + |Tail(s.hasElse, s.els)|)
    decreases s, 0
  {
    var tail := pos + |Lines(s.thn)|;
    BlockOrdered(ls, ms, pos, s.thn);
    BlockMark(ls, ms, pos, s.thn);
    SameHeaded(ls, ms, pos, tail);
    TailOrdered(ls, ms, tail, s.hasElse, s.els);
    Joined(ls, ms, pos, tail, tail + |Tail(s.hasElse, s.els)|);
  }

  lemma {:induction false} InsideIf(ls: seq<Line>, ms: seq<Mark>, pos: nat)
    requires Marks(ls, ms) && pos + 1 < |ls| && Headed(ls, ms, pos) && ls[pos].IfLine? && ls[pos + 1].ThenLine?
    ensures Headed(ls, ms, pos + 2) && OrderedTo(ls, ms, pos, pos + 2)
  {
    NextMark(ls, ms, pos);
    NextMark(ls, ms, pos + 1);
  }

  lemma {:induction false} SameHeaded(ls: seq<Line>, ms: seq<Mark>, i: nat, j: nat)
    requires Marks(ls, ms) && i <= j <= |ls| && Headed(ls, ms, i) && ms[i] == ms[j]
    ensures Headed(ls, ms, j)
  {
  }

  lemma {:induction false} LoopOrdered(ls: seq<Line>, ms: seq<Mark>, pos: nat, s: Stmt)
    requires Marks(ls, ms) && s.LoopStmt? && At(ls, pos, StmtLines(s)) && Headed(ls, ms, pos)
    ensures OrderedTo(ls, ms, pos, pos + |StmtLines(s)|)
    decreases s, 1
  {
    LoopMark(ls, ms, pos, s);
    var end := pos + 2 + |Lines(s.body)|;
    InsideLoop(ls, ms, pos);
    BlockOrdered(ls, ms, pos + 2, s.body);
    BlockMark(ls, ms, pos + 2, s.body);
    SameHeaded(ls, ms, pos + 2, end);
    DoneOrdered(ls, ms, pos, end);
    Joined(ls, ms, pos, pos + 2, end);
    Joined(ls, ms, pos, end, end + 1);
  }

  lemma {:induction false} DoneOrdered(ls: seq<Line>, ms: seq<Mark>, pos: nat, end: nat)
    requires Marks(ls, ms) && pos < end < |ls| && ls[end].DoneLine? && Headed(ls, ms, end)
    requires ms[end] == ms[pos].(heads := ms[pos].heads + [pos])
    ensures OrderedTo(ls, ms, end, end + 1)
  {
  }

  lemma {:induction false} Joined(ls: seq<Line>, ms: seq<Mark>, i: nat, j: nat, k: nat)
    requires Marks(ls, ms) && OrderedTo(ls, ms, i, j) && OrderedTo(ls, ms, j, k)
    ensures OrderedTo(ls, ms, i, k)
  {
  }

  lemma {:induction false} InsideLoop(ls: seq<Line>, ms: seq<Mark>, pos: nat)
    requires Marks(ls, ms) && pos + 1 < |ls| && Headed(ls, ms, pos) && ls[pos].LoopLine? && ls[pos + 1].DoLine?
    ensures Headed(ls, ms, pos + 2) && OrderedTo(ls, ms, pos, pos + 2)
  {
    NextMark(ls, ms, pos);
    NextMark(ls, ms, pos + 1);
    NewHead(ls, ms, pos, pos + 1);
    NewHead(ls, ms, pos, pos + 2);
  }

  lemma {:induction false} NewHead(ls: seq<Line>, ms: seq<Mark>, pos: nat, i: nat)
    requires |ms| == |ls| + 1 && pos < i <= |ls| && ls[pos].LoopLine? && ms[i] == ms[pos].(heads := ms[pos].heads + [pos])
    ensures Headed(ls, ms, i)
  {
    var hs := ms[pos].heads;
    assert (hs + [pos])[..|hs|] == hs;
  }

  lemma {:induction false} TailOrdered(ls: seq<Line>, ms: seq<Mark>, pos: nat, hasElse: bool, els: Block)
    requires Marks(ls, ms) && At(ls, pos, Tail(hasElse, els)) && Headed(ls, ms, pos) && ms[pos].ifs > 0
    ensures OrderedTo(ls, ms, pos, pos + |Tail(hasElse, els)|)
    decreases els, 2
  {
    if hasElse {
      ElseOrdered(ls, ms, pos, els);
    } else {
      AtOne(ls, pos, FiLine);
      LineOrdered(ls, ms, pos);
    }
  }

  lemma {:induction false} ElseOrdered(ls: seq<Line>, ms: seq<Mark>, pos: nat, els: Block)
    requires Marks(ls, ms) && At(ls, pos, Tail(true, els)) && Headed(ls, ms, pos) && ms[pos].ifs > 0
    ensures OrderedTo(ls, ms, pos, pos + |Tail(true, els)|)
    decreases els, 1
  {
    ElseMark(ls, ms, pos, els);
    var fi := pos + 1 + |Lines(els)|;
    LineOrdered(ls, ms, pos);
    SameHeaded(ls, ms, pos, pos + 1);
    BlockOrdered(ls, ms, pos + 1, els);
    BlockMark(ls, ms, pos + 1, els);
    SameHeaded(ls, ms, pos + 1, fi);
    LineOrdered(ls, ms, fi);
    Joined(ls, ms, pos, pos + 1, fi);
    Joined(ls, ms, pos, fi, fi + 1);
  }

  lemma {:induction false} LineOrdered(ls: seq<Line>, ms: seq<Mark>, i: nat)
    requires Marks(ls, ms) && i < |ls| && Headed(ls, ms, i) && !ls[i].IfLine? && !ls[i].LoopLine? && !ls[i].DoneLine?
    requires ls[i].FiLine? ==> ms[i].ifs > 0
    ensures OrderedTo(ls, ms, i, i + 1)
  {
  }

  /** The lines of every script are in order, and nothing is around the end. */
  lemma {:induction false} ScriptOrdered(b: Block)
    ensures var ls := Lines(b);
            var ms := MarksOf(ls);
            OrderedTo(ls, ms, 0, |ls|) && ms[|ls|] == Mark(0, [])
  {
    var ls := Lines(b);
    assert ls[0..|ls|] == ls;
    BlockOrdered(ls, MarksOf(ls), 0, b);
    BlockMark(ls, MarksOf(ls), 0, b);
  }
}
