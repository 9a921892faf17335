/**
 Whole scripts on the array machine: what it runs, in which order, with which `$?`, and how it
 leaves its stacks.
 */
module NshScripts {
  import opened Basics
  import opened NshMachine
  import opened NshStacks
  import opened NshTree
  import opened NshLayout
  import opened NshRefine
  import opened NshNesting
  import opened NshStray

  /** Between scripts: nothing is open and the script file is at its start. */
  ghost predicate AtStart(p: Parser) {
    Indexed(p) && p.inScript && p.pos == 0 && Idle(p)
  }

  ghost predicate Idle(p: Parser)
    requires Indexed(p)
  {
    p.iendx == 0 && p.lpndx == 0 && p.ie[0] == ResetIf && p.lp[0].state == LNormal
  }

  /** The machine is at the end of the script. */
  ghost predicate Finished(b: Block, p: Parser) {
    p.pos >= |Lines(b)|
  }

  /** A session at the start of a script that fits it. */
  ghost predicate Starts(b: Block, r: Reader, p: Parser) {
    ReadsLines(r, Lines(b)) && AtStart(p) && Fits(b, 0, 0, |p.ie|)
  }

  /** What the machine makes of the script, within n rounds per loop. */
  ghost function FlatRun(b: Block, r: Reader, p: Parser, n: nat): Outcome {
    FlatBlock(b, r.o, p.history, p.fail, false, 0, false, n)
  }

  /** The machine ended as the tree did: same commands in the same order, same `$?`, and both
      stacks back where they were. */
  ghost predicate EndsAs(q: Parser, b: Block, e: Outcome, p: Parser) {
    && Indexed(q) && Indexed(p) && e.Ended? && Finished(b, q)
    && q.history == e.history && q.fail == e.fail
    && Idle(q) && q.lp[0] == p.lp[0]
  }

  // ----- steps and lines -----

  lemma {:induction false} StepsPrefix(c: Code, s: State, j: nat, k: nat)
    requires j <= k && Steps(c, s, k).Some?
    ensures Steps(c, s, j).Some?
    ensures Steps(c, s, j).value.pos >= |c.ls| ==> Steps(c, s, k) == Steps(c, s, j)
    decreases j
  {
    if j > 0 && s.pos < |c.ls| {
      StepsPrefix(c, c.step(s).value, j - 1, k - 1);
    }
  }

  lemma {:induction false} RunAdd(r: Reader, p: Parser, j: nat, k: nat)
    ensures Run(r, p, j + k) == Run(r, Run(r, p, j), k)
    decreases j
  {
    if j > 0 && p.pos < |r.script| {
      RunAdd(r, r.step(p), j - 1, k);
    }
  }

  /** A run only ever adds to what has run. */
  lemma {:induction false} RunGrows(r: Reader, p: Parser, k: nat)
    requires Reads(r) && Indexed(p)
    ensures Indexed(Run(r, p, k)) && p.history <= Run(r, p, k).history
    decreases k
  {
    if k > 0 && p.pos < |r.script| {
      assert LooksAt(p);
      RunGrows(r, r.step(p), k - 1);
    }
  }

  lemma {:induction false} RunsOn(r: Reader, p: Parser, j: nat, k: nat)
    requires Reads(r) && Indexed(p) && j <= k
    ensures Run(r, p, j).history <= Run(r, p, k).history
    ensures Run(r, p, j).pos >= |r.script| ==> Run(r, p, k).pos >= |r.script|
  {
    RunGrows(r, p, j);
    RunGrows(r, Run(r, p, j), k - j);
    RunAdd(r, p, j, k - j);
  }

  lemma {:induction false} ViewEnds(q: Parser, b: Block, e: Outcome, p: Parser)
    requires AtStart(p) && Indexed(q) && e.Ended? && !e.off && View(q) == After(View(p), |Lines(b)|, e)
    ensures EndsAs(q, b, e, p)
  {
    assert View(q).ifs.top == q.ie[q.iendx] && View(q).loops.top == q.lp[q.lpndx];
  }

  /** After k lines the machine is where k steps of the stack machine are. */
  lemma {:induction false} ScriptSteps(b: Block, r: Reader, p: Parser, k: nat)
    requires ReadsLines(r, Lines(b)) && AtStart(p) && Steps(CodeOf(Lines(b), r.o, |p.ie|), View(p), k).Some?
    ensures Indexed(Run(r, p, k)) && View(Run(r, p, k)) == Steps(CodeOf(Lines(b), r.o, |p.ie|), View(p), k).value
  {
    RunRefines(CodeOf(Lines(b), r.o, |p.ie|), r, p, k);
  }

  lemma {:induction false} StepsLead(b: Block, r: Reader, p: Parser, n: nat) returns (k: nat)
    requires Starts(b, r, p)
    ensures var e := FlatRun(b, r, p, n);
            && Leads(CodeOf(Lines(b), r.o, |p.ie|), MarksOf(Lines(b)), View(p), After(View(p), |Lines(b)|, e), e, n, k)
            && (e.Ended? ==> !e.off)
  {
    var c := CodeOf(Lines(b), r.o, |p.ie|);
    assert c.ls[0..|c.ls|] == c.ls;
    k := Runs(b, c, MarksOf(Lines(b)), View(p), n);
  }

  /** k steps that reach the end of the script are as good as any number that does. */
  lemma {:induction false} StepsDecide(c: Code, ms: seq<Mark>, s: State, t: State, r: Outcome, j: nat, k: nat)
    requires Leads(c, ms, s, t, r, k, j) && (r.Ended? ==> t.pos >= |c.ls|) && !r.Lost?
    ensures Steps(c, s, k).Some?
    ensures Steps(c, s, k).value.pos >= |c.ls| ==> r.Ended? && Steps(c, s, k).value == t
  {
    if j < k {
      StepsAdd(c, s, j, t, k - j);
    } else {
      StepsPrefix(c, s, k, j);
    }
  }

  // ----- what the machine makes of a script -----

  /** Some number of lines ends the script as its flat meaning says, if that ends. */
  lemma {:induction false} MachineEnds(b: Block, r: Reader, p: Parser, n: nat) returns (k: nat)
    requires Starts(b, r, p) && FlatRun(b, r, p, n).Ended?
    ensures EndsAs(Run(r, p, k), b, FlatRun(b, r, p, n), p)
  {
    k := StepsLead(b, r, p, n);
    ScriptSteps(b, r, p, k);
    ViewEnds(Run(r, p, k), b, FlatRun(b, r, p, n), p);
  }

  /** If the machine is at the end after k lines, its flat meaning ends within k rounds per loop and the
      machine is idle, or it has lost its place. */
  lemma {:induction false} EndIsFlat(b: Block, r: Reader, p: Parser, k: nat)
    requires Starts(b, r, p) && Finished(b, Run(r, p, k))
    ensures var e := FlatRun(b, r, p, k); e.Lost? || (EndsAs(Run(r, p, k), b, e, p) && !e.off)
  {
    var e := FlatRun(b, r, p, k);
    if !e.Lost? {
      var j := StepsLead(b, r, p, k);
      StepsDecide(CodeOf(Lines(b), r.o, |p.ie|), MarksOf(Lines(b)), View(p), After(View(p), |Lines(b)|, e), e, j, k);
      ScriptSteps(b, r, p, k);
      ViewEnds(Run(r, p, k), b, e, p);
    }
  }

  /** The machine finishes the script with these commands run and this `$?`, and idle. */
  ghost predicate Halts(b: Block, r: Reader, p: Parser, h: seq<Event>, f: bool) {
    exists k: nat :: EndsAs(Run(r, p, k), b, Ended(h, f, false), p)
  }

  /** The machine never runs a `break` inside an if. */
  ghost predicate KeepsPlace(b: Block, r: Reader, p: Parser) {
    forall n: nat :: !FlatRun(b, r, p, n).Lost?
  }

  /** A machine that keeps its place finishes a script exactly when its flat meaning ends, and as that
      ends. */
  lemma {:induction false} MachineIsFlat(b: Block, r: Reader, p: Parser, h: seq<Event>, f: bool)
    requires Starts(b, r, p) && KeepsPlace(b, r, p)
    ensures Halts(b, r, p, h, f) <==> exists n: nat :: FlatRun(b, r, p, n) == Ended(h, f, false)
  {
    if n: nat :| FlatRun(b, r, p, n) == Ended(h, f, false) {
      var k := MachineEnds(b, r, p, n);
    }
    if k: nat :| EndsAs(Run(r, p, k), b, Ended(h, f, false), p) {
      EndIsFlat(b, r, p, k);
      assert FlatRun(b, r, p, k) == Ended(h, f, false);
    }
  }

  /** The structured meaning of the script. */
  ghost function TreeRun(b: Block, r: Reader, p: Parser, n: nat): Outcome {
    ExecBlock(b, r.o, p.history, p.fail, false, n)
  }

  lemma {:induction false} CleanRun(b: Block, r: Reader, p: Parser)
    requires Clean(b, false, false)
    ensures forall n: nat :: FlatRun(b, r, p, n) == TreeRun(b, r, p, n)
    ensures KeepsPlace(b, r, p)
  {
    forall n: nat ensures FlatRun(b, r, p, n) == TreeRun(b, r, p, n) && !FlatRun(b, r, p, n).Lost? {
      Agrees(b, r.o, p.history, p.fail, 0, false, n);
      NeverLost(b, r.o, p.history, p.fail, false, n);
    }
  }

  /** A clean script runs as its tree says: the machine finishes exactly when the structured run ends,
      with the same commands in the same order and the same `$?`, and both stacks back where they were. */
  lemma {:induction false} MachineIsStructured(b: Block, r: Reader, p: Parser, h: seq<Event>, f: bool)
    requires Starts(b, r, p) && Clean(b, false, false)
    ensures Halts(b, r, p, h, f) <==> exists n: nat :: TreeRun(b, r, p, n) == Ended(h, f, false)
  {
    CleanRun(b, r, p);
    MachineIsFlat(b, r, p, h, f);
    if n: nat :| TreeRun(b, r, p, n) == Ended(h, f, false) {
      assert FlatRun(b, r, p, n) == Ended(h, f, false);
    }
    if n: nat :| FlatRun(b, r, p, n) == Ended(h, f, false) {
      assert TreeRun(b, r, p, n) == Ended(h, f, false);
    }
  }

  /** A clean script whose structured run has not ended within n rounds per loop has not ended on the
      machine either: after some k lines, no fewer than n, it has run the very same commands, and
      before that a part of them. */
  lemma {:induction false} MachineGoesOn(b: Block, r: Reader, p: Parser, n: nat) returns (k: nat)
    requires Starts(b, r, p) && Clean(b, false, false) && TreeRun(b, r, p, n).Timeout?
    ensures k >= n && Run(r, p, k).history == TreeRun(b, r, p, n).history
    ensures forall j: nat :: j <= k ==> !Finished(b, Run(r, p, j)) && Run(r, p, j).history <= Run(r, p, k).history
  {
    CleanRun(b, r, p);
    assert FlatRun(b, r, p, n) == TreeRun(b, r, p, n);
    k := StepsLead(b, r, p, n);
    ScriptSteps(b, r, p, k);
    forall j: nat | j <= k ensures !Finished(b, Run(r, p, j)) && Run(r, p, j).history <= Run(r, p, k).history {
      RunsOn(r, p, j, k);
    }
  }

  // ----- a `break` inside an if -----

  /** Before the end: the machine is still inside the script after j lines, so more than j finish it. */
  lemma {:induction false} NotYet(r: Reader, p: Parser, j: nat, k: nat)
    requires Run(r, p, j).pos < |r.script| && Run(r, p, k).pos >= |r.script|
    ensures j < k && Run(r, p, k) == Run(r, r.step(Run(r, p, j)), k - j - 1)
  {
    if k <= j {
      RunAdd(r, p, k, j - k);
    } else {
      RunAdd(r, p, j, k - j);
    }
  }

  lemma {:induction false} IsText(b: Block)
    ensures Texts(Lines(b), MarksOf(Lines(b)))
  {
    ScriptOrdered(b);
  }

  /** The line at which the machine loses its place, still calm. */
  lemma {:induction false} LosesAt(b: Block, r: Reader, p: Parser, n: nat) returns (j: nat)
    requires Starts(b, r, p) && Still(p) && FlatRun(b, r, p, n).Lost?
    ensures var q := Run(r, p, j);
            && Calm(Lines(b), q) && !Finished(b, q) && p.history <= q.history
            && Straying(CodeOf(Lines(b), r.o, |p.ie|), MarksOf(Lines(b)), View(q), FlatRun(b, r, p, n))
  {
    IsText(b);
    j := StepsLead(b, r, p, n);
    ScriptSteps(b, r, p, j);
    RunGoesOn(Lines(b), MarksOf(Lines(b)), r, p, j, |p.history|);
  }

  /** When the machine loses its place in a loop that stands in no other, it does not come to the end of
      the script without a failure that `$?` shows, to the commands that run on or at the end. */
  lemma {:induction false} LostShows(b: Block, r: Reader, p: Parser, n: nat, k: nat)
    requires Starts(b, r, p) && Still(p) && Finished(b, Run(r, p, k))
    requires FlatRun(b, r, p, n).Lost? && !FlatRun(b, r, p, n).nested
    ensures Tainted(Run(r, p, k), |p.history|)
  {
    var j := LosesAt(b, r, p, n);
    NotYet(r, p, j, k);
    StrayFrom(b, r, Run(r, p, j), |p.ie|, FlatRun(b, r, p, n), k - j - 1, |p.history|);
  }

  lemma {:induction false} StrayFrom(b: Block, r: Reader, q: Parser, n: nat, e: Outcome, k: nat, l: nat)
    requires ReadsLines(r, Lines(b)) && Calm(Lines(b), q) && !Finished(b, q) && l <= |q.history|
    requires e.Lost? && !e.nested && Straying(CodeOf(Lines(b), r.o, n), MarksOf(Lines(b)), View(q), e)
    requires Finished(b, Run(r, r.step(q), k))
    ensures Tainted(Run(r, r.step(q), k), l)
  {
    var ls, ms := Lines(b), MarksOf(Lines(b));
    IsText(b);
    StepGoesOn(ls, ms, r, q, l);
    BreakStrays(CodeOf(ls, r.o, n), ms, r, q, e);
    StrayShows(ls, ms, r, r.step(q), k, l);
  }

  /** What the machine had run when it lost its place it has run at the end. */
  lemma {:induction false} LostKeeps(b: Block, r: Reader, p: Parser, n: nat, k: nat)
    requires Starts(b, r, p) && Still(p) && Finished(b, Run(r, p, k)) && FlatRun(b, r, p, n).Lost?
    ensures FlatRun(b, r, p, n).history <= Run(r, p, k).history
  {
    var j := LosesAt(b, r, p, n);
    NotYet(r, p, j, k);
    RunsOn(r, p, j, k);
  }
}
