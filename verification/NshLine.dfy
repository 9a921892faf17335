/**
 The command line as the shell works on it: an array of characters that is cut into words in place.
 A text starts at some place of the array and ends at the next NUL.
 */
module NshLine {
  import opened Basics
  import opened NshText

  /** The text at p ends at e. */
  ghost predicate Ended(s: string, p: nat, e: nat) {
    p <= e < |s| && s[e] == NUL && forall i :: p <= i < e ==> s[i] != NUL
  }

  /** What the pointer returned by nsh_argument points at. */
  datatype Pointer = Null | Less | At(p: nat)

  /** The rest of a text that is unescaped in place: its first character may be escaped already. */
  ghost function UnescapeFrom(s: string, quoted: bool): string {
    if quoted && s != [] then [s[0]] + Unescape(s[1..]) else Unescape(s)
  }

  lemma {:induction false} UnescapeMove(s: string, quoted: bool)
    requires s != []
    ensures s[0] == '\\' && !quoted ==> UnescapeFrom(s, quoted) == UnescapeFrom(s[1..], true)
    ensures s[0] != '\\' || quoted ==> UnescapeFrom(s, quoted) == [s[0]] + UnescapeFrom(s[1..], false)
  {
    if |s| > 1 {
      assert s[1..][1..] == s[2..];
    }
  }

  class LineBuffer {
    const buf: array<char>

    constructor (a: array<char>)
      ensures buf == a
    {
      buf := a;
    }

    /** nsh_strchr: the place of the first unescaped ch in the text at p, or the end of the text. */
    method StrChr(p: nat, ch: char, ghost e: nat) returns (r: nat)
      requires Ended(buf[..], p, e) && ch != NUL
      ensures r == p + Find(buf[p..e], ch, false) && (r < e ==> buf[r] == ch)
    {
      r := p;
      var quoted := false;
      while true
        invariant p <= r <= e
        invariant p + Find(buf[p..e], ch, false) == r + Find(buf[r..e], ch, quoted)
        decreases e - r
      {
        ghost var here := buf[r..e];
        if buf[r] == '\\' && !quoted {
          assert buf[r + 1..e] == here[1..];
          quoted := true;
        } else if buf[r] == ch && !quoted {
          return;
        } else if buf[r] == NUL {
          return;
        } else {
          assert buf[r + 1..e] == here[1..];
          quoted := false;
        }
        r := r + 1;
      }
    }

    /** The inner loop of nsh_dequote: the text after ptr moves one place to the left, with its NUL. */
    method ShiftLeft(ptr: nat, ghost e: nat)
      requires ptr < e && Ended(buf[..], ptr, e)
      modifies buf
      ensures forall i :: ptr <= i < e ==> buf[i] == old(buf[i + 1])
      ensures forall i :: 0 <= i < ptr || e <= i < buf.Length ==> buf[i] == old(buf[i])
    {
      var dest, src := ptr, ptr + 1;
      var ch := buf[src];
      src := src + 1;
      buf[dest] := ch;
      dest := dest + 1;
      while ch != NUL
        invariant ptr < dest <= e && src == dest + 1 && ch == old(buf[dest])
        invariant forall i :: ptr <= i < dest ==> buf[i] == old(buf[i + 1])
        invariant forall i :: 0 <= i < ptr || dest <= i < buf.Length ==> buf[i] == old(buf[i])
        decreases e - dest
      {
        ch := buf[src];
        src := src + 1;
        buf[dest] := ch;
        dest := dest + 1;
      }
    }

    /** nsh_dequote: the text at p loses its backslashes in place. */
    method Dequote(p: nat, ghost e: nat) returns (ghost end: nat)
      requires Ended(buf[..], p, e)
      modifies buf
      ensures p <= end <= e && Ended(buf[..], p, end)
      ensures buf[p..end] == Unescape(old(buf[p..e]))
      ensures forall i :: 0 <= i < p || e < i < buf.Length ==> buf[i] == old(buf[i])
    {
      GoStart(buf[..], p, e);
      end := DequoteTo(p, e, Unescape(buf[p..e]));
    }

    /** One round of nsh_dequote: a backslash that is not escaped goes, any other character stays. */
    method DequoteOne(ptr: nat, quoted: bool, ghost end: nat) returns (next: nat, escapes: bool)
      requires ptr < end && Ended(buf[..], ptr, end)
      modifies buf
      ensures escapes == (old(buf[ptr]) == '\\' && !quoted) && next == if escapes then ptr else ptr + 1
      ensures !escapes ==> buf[..] == old(buf[..])
      ensures escapes ==> forall i :: ptr <= i < end ==> buf[i] == old(buf[i + 1])
      ensures forall i :: 0 <= i < ptr || end <= i < buf.Length ==> buf[i] == old(buf[i])
    {
      if buf[ptr] == '\\' && !quoted {
        ShiftLeft(ptr, end);
        next, escapes := ptr, true;
      } else {
        next, escapes := ptr + 1, false;
      }
    }

    /** The loop of nsh_dequote. */
    method DequoteTo(p: nat, ghost e: nat, ghost goal: string) returns (ghost end: nat)
      requires Going(buf[..], p, p, e, false, goal)
      modifies buf
      ensures p <= end <= e && Ended(buf[..], p, end) && buf[..][p..end] == goal
      ensures forall i :: 0 <= i < p || e < i < buf.Length ==> buf[i] == old(buf[i])
    {
      var ptr, quoted := p, false;
      end := e;
      while buf[ptr] != NUL
        invariant p <= ptr && end <= e && Going(buf[..], p, ptr, end, quoted, goal)
        invariant forall i :: 0 <= i < p || e < i < buf.Length ==> buf[i] == old(buf[i])
        decreases end - ptr, if quoted then 0 else 1
      {
        ghost var s, was, at := buf[..], quoted, ptr;
        ptr, quoted := DequoteOne(ptr, quoted, end);
        if quoted {
          GoShift(s, buf[..], p, at, end, goal);
          end := end - 1;
        } else {
          GoNext(s, p, at, end, was, goal);
        }
      }
      ghost var last := buf[..];
      GoEnd(last, p, ptr, end, quoted, goal);
      buf[ptr] := NUL;
      assert buf[..] == last;
    }

    /** nsh_rmquotes: the quotes at qbegin and qend go, and the text moves up. */
    method RmQuotes(qbegin: nat, qend: nat, ghost e: nat) returns (r: int)
      requires qbegin < qend < e && Ended(buf[..], qbegin, e)
      modifies buf
      ensures r == qend - 2
      ensures forall i :: qbegin <= i < qend - 1 ==> buf[i] == old(buf[i + 1])
      ensures forall i :: qend - 1 <= i < e - 1 ==> buf[i] == old(buf[i + 2])
      ensures forall i :: 0 <= i < qbegin || e - 1 <= i < buf.Length ==> buf[i] == old(buf[i])
    {
      var dst, ptr := qbegin, qbegin + 1;
      while true
        invariant qbegin <= dst <= e - 2 && ptr == if dst < qend then dst + 1 else dst + 2
        invariant forall i :: qbegin <= i < dst && i < qend - 1 ==> buf[i] == old(buf[i + 1])
        invariant forall i :: qend - 1 <= i < dst ==> buf[i] == old(buf[i + 2])
        invariant forall i :: 0 <= i < qbegin || dst <= i < buf.Length ==> buf[i] == old(buf[i])
        decreases e - dst
      {
        if ptr == qend {
          ptr := ptr + 1;
        }
        var ch := buf[ptr];
        ptr := ptr + 1;
        buf[dst] := ch;
        dst := dst + 1;
        if ch == NUL {
          break;
        }
      }
      r := qend - 2;
    }

    /** The part of the word scan at a quote: its closing one is found, and both are removed unless
        they are backquotes. The scan goes on behind next. */
    method PassQuotes(pbegin: nat, pend: nat, ghost e: nat, ghost first: bool, ghost f: Flags, ghost t: Token)
      returns (ok: bool, next: int, ghost end: nat)
      requires Scanning(buf[..], pbegin, pend, e, first, f, t) && pend < e && Looks(buf[..], pend, e, first, f)
      requires IsQuote(buf[pend])
      modifies buf
      ensures end <= e && (!ok ==> t == Unmatched)
      ensures ok ==> pend <= next + 1 <= end && end - next <= e - pend
      ensures ok ==> Scanning(buf[..], pbegin, next + 1, end, false,
                              Flags(false, f.squote || old(buf[pend]) == '\'', true), t)
      ensures forall i :: 0 <= i < pend || e < i < buf.Length ==> buf[i] == old(buf[i])
    {
      ghost var s := buf[..];
      end, next := e, pend;
      assert buf[pend + 1..e] == s[pend + 1..e];
      var qend := StrChr(pend + 1, buf[pend], e);
      if buf[qend] == NUL {
        ScanOpen(s, pbegin, pend, e, first, f, t);
        return false, next, end;
      }
      if buf[pend] == '`' {
        next := qend;
        ScanBack(s, pbegin, pend, qend, e, first, f, t);
      } else {
        next := RmQuotes(pend, qend, e);
        ScanQuotes(s, buf[..], pbegin, pend, qend, e, first, f, t);
        end := e - 2;
      }
      ok := true;
    }

    /** One round of the word scan, at a character that is not NUL. */
    method ScanOne(pbegin: nat, pend: nat, prev: int, f: Flags, ghost e: nat, ghost t: Token)
      returns (p: Progress, next: int, g: Flags, ghost end: nat)
      requires pbegin <= pend < e && (prev == -1 || prev == pend - 1)
      requires Scanning(buf[..], pbegin, pend, e, prev == -1, f, t)
      modifies buf
      ensures end <= e && (p == Fails ==> t == Unmatched)
      ensures p == Stops ==> next == pend && Ended(buf[..], pbegin, end) && ScannedTo(buf[..], pbegin, pend, end, t)
      ensures p == Stops ==> g.squote == t.squote && g.quoted == t.quoted
      ensures p == Goes ==> pend <= next + 1 && end - next <= e - pend
      ensures p == Goes ==> Scanning(buf[..], pbegin, next + 1, end, false, g, t)
      ensures forall i :: 0 <= i < pbegin || e < i < buf.Length ==> buf[i] == old(buf[i])
    {
      var c := buf[pend];
      p, next, g, end := Goes, pend, f, e;
      if prev != -1 && buf[prev] == '\\' && !f.escaped {
        g := f.(escaped := true);
        ScanChar(buf[..], pbegin, pend, e, prev == -1, f, t);
      } else if c == '\\' {
        g := f.(escaped := false);
        ScanChar(buf[..], pbegin, pend, e, prev == -1, f, t);
      } else if IsQuote(c) {
        var ok;
        ok, next, end := PassQuotes(pbegin, pend, e, prev == -1, f, t);
        p, g := if ok then Goes else Fails, Flags(false, f.squote || c == '\'', true);
      } else if IsSeparator(c) {
        p, g := Stops, Flags(false, f.squote, false);
        ScanStop(buf[..], pbegin, pend, e, prev == -1, f, t);
      } else {
        g := Flags(false, f.squote, false);
        ScanChar(buf[..], pbegin, pend, e, prev == -1, f, t);
      }
    }

    /** The loop of nsh_argument that finds the end of the word at pbegin and removes its quotes. */
    method ScanWord(pbegin: nat, ghost e: nat) returns (ok: bool, pend: int, f: Flags, ghost end: nat, ghost t: Token)
      requires 1 <= pbegin && Ended(buf[..], pbegin, e)
      modifies buf
      ensures t == Scan([], old(buf[pbegin - 1]), NUL, old(buf[pbegin..e]), Start)
      ensures ok == t.Token? && end <= e
      ensures ok ==> Ended(buf[..], pbegin, end) && pbegin <= pend && ScannedTo(buf[..], pbegin, pend, end, t)
      ensures ok ==> f.squote == t.squote && f.quoted == t.quoted
      ensures forall i :: 0 <= i < pbegin || e < i < buf.Length ==> buf[i] == old(buf[i])
    {
      t := Scan([], buf[pbegin - 1], NUL, buf[pbegin..e], Start);
      var prev := -1;
      pend, f, end := pbegin, Start, e;
      assert buf[..][pbegin..pbegin] == [] && buf[..][pbegin..e] == buf[pbegin..e];
      while buf[pend] != NUL
        invariant pbegin <= pend && (prev == -1 || prev == pend - 1) && end <= e
        invariant Scanning(buf[..], pbegin, pend, end, prev == -1, f, t)
        invariant forall i :: 0 <= i < pbegin || e < i < buf.Length ==> buf[i] == old(buf[i])
        decreases end - pend
      {
        var p;
        p, pend, f, end := ScanOne(pbegin, pend, prev, f, end, t);
        if p != Goes {
          ok := p == Stops;
          return;
        }
        prev := pend;
        pend := pend + 1;
      }
      ScanFinish(buf[..], pbegin, pend, end, prev == -1, f, t);
      ok := true;
    }

    /** The separators in front of a word are passed. */
    method SkipSeparators(save: nat, ghost e: nat) returns (pbegin: nat)
      requires 1 <= save && Ended(buf[..], save, e)
      ensures save <= pbegin <= e && Skip(buf[save..e]) == buf[pbegin..e]
      ensures Before(buf[save..e], buf[save - 1]) == buf[pbegin - 1]
    {
      ghost var line, before := buf[save..e], buf[save - 1];
      pbegin := save;
      while buf[pbegin] != NUL && IsSeparator(buf[pbegin])
        invariant save <= pbegin <= e
        invariant Skip(line) == Skip(buf[pbegin..e])
        invariant Before(line, before) == Before(buf[pbegin..e], buf[pbegin - 1])
        decreases e - pbegin
      {
        assert buf[pbegin..e][1..] == buf[pbegin + 1..e];
        pbegin := pbegin + 1;
      }
    }

    /** nsh_argument: the next word of the text at save is found, its quotes are removed and a NUL is put
        behind it; next is the place for the next call. */
    method Argument(save: nat, ghost e: nat) returns (arg: Pointer, next: nat, f: Flags, ghost end: nat)
      requires 1 <= save && Ended(buf[..], save, e)
      modifies buf
      ensures match FirstArg(old(buf[save..e]), old(buf[save - 1]))
              case NoArg => arg == Null
              case Input(rest) => arg == Less && Holds(buf[..], next, end, rest)
              case Word(t) =>
                && arg.At? && Holds(buf[..], arg.p, arg.p + |t.text|, t.text)
                && Holds(buf[..], next, end, t.rest)
                && f.squote == t.squote && f.quoted == t.quoted
      ensures forall i :: 0 <= i < save || e < i < buf.Length ==> buf[i] == old(buf[i])
    {
      arg, next, f, end := Null, save, Start, e;
      var pbegin := SkipSeparators(save, e);
      ghost var here := buf[pbegin..e];
      if buf[pbegin] == NUL {
        assert here == [];
        return;
      }
      assert here[0] == buf[pbegin];
      if buf[pbegin] == '<' {
        next, arg := pbegin + 1, Less;
        assert here[1..] == buf[..][pbegin + 1..e];
      } else if buf[pbegin] == '#' {
        next := pbegin;
      } else {
        var ok, pend;
        ghost var t;
        ok, pend, f, end, t := ScanWord(pbegin, e);
        if !ok {
          return;
        }
        ghost var s := buf[..];
        if buf[pend] != NUL {
          buf[pend] := NUL;
          Separated(s, buf[..], pbegin, pend, end, t);
          pend := pend + 1;
        }
        next, arg := pend, At(pbegin);
      }
    }

    /** Where the text at working is cut. */
    method FindCut(working: nat, ghost e: nat) returns (cut: Cut)
      requires Ended(buf[..], working, e)
      ensures cut == Moved(NextCut(buf[working..e]), working)
    {
      var ptr := SpanFrom(working, e);
      if buf[ptr] == NUL || buf[ptr] == '\n' || buf[ptr] == '#' {
        cut := AtEnd;
      } else if buf[ptr] == ';' {
        cut := AtSemicolon(ptr);
      } else {
        var tmp := StrChr(ptr + 1, buf[ptr], e);
        assert buf[working..e][ptr - working + 1..] == buf[ptr + 1..e];
        cut := if buf[tmp] == NUL then Unclosed else AtQuote(tmp);
      }
    }

    /** A command is ended where its semicolon stands. */
    method CutCommand(start: nat, ptr: nat) returns (command: string)
      requires start <= ptr < buf.Length
      modifies buf
      ensures buf[..] == old(buf[..])[ptr := NUL] && command == old(buf[..])[start..ptr]
    {
      buf[ptr] := NUL;
      command := buf[start..ptr];
    }

    /** One round of the loop of nsh_parse. */
    method ParseOne(start: nat, working: nat, past: seq<string>, status: seq<string> -> bool, ghost e: nat)
      returns (n: Round, ghost cut: Cut)
      requires start <= working <= e && Ended(buf[..], start, e)
      modifies buf
      ensures cut == Moved(NextCut(old(buf[working..e])), working)
      ensures RoundIs(old(buf[..]), buf[..], start, working, e, past, status, cut, n)
    {
      cut := Moved(NextCut(buf[working..e]), working);
      var c := FindCut(working, e);
      match c {
        case AtEnd =>
          var end := StrLen(start, e);
          var ran := past + [buf[start..end]];
          n := Round(true, status(ran), ran, start, working);
        case AtSemicolon(ptr) =>
          var command := CutCommand(start, ptr);
          var ran := past + [command];
          n := Round(!status(ran), false, ran, ptr + 1, ptr + 1);
        case AtQuote(tmp) =>
          n := Round(false, false, past, start, tmp + 1);
        case Unclosed =>
          n := Round(true, false, past, start, working);
      }
    }

    /** nsh_parse: the commands of the text at first, cut at the semicolons, are run one after the other
        up to the first that fails. */
    method Parse(first: nat, status: seq<string> -> bool, ghost e: nat) returns (ran: seq<string>, ok: bool)
      requires Ended(buf[..], first, e)
      modifies buf
      ensures Outcome(ran, ok) == RunAll([], Split([], old(buf[first..e])), status)
      ensures forall i :: 0 <= i < first || e <= i < buf.Length ==> buf[i] == old(buf[i])
    {
      ghost var c := Split([], buf[first..e]);
      ghost var goal := RunAll([], c, status);
      assert buf[..][first..first] == [] && buf[..][first..e] == buf[first..e];
      var n := Round(false, false, [], first, first);
      while !n.done
        invariant first <= n.start
        invariant n.done ==> Outcome(n.ran, n.ok) == goal
        invariant !n.done ==> Splitting(buf[..], n.start, n.working, e, c) && RunAll(n.ran, c, status) == goal
        invariant forall i :: 0 <= i < first || e <= i < buf.Length ==> buf[i] == old(buf[i])
        decreases !n.done, e - n.working
      {
        ghost var s, was, cut := buf[..], n, AtEnd;
        n, cut := ParseOne(n.start, n.working, n.ran, status, e);
        c := RoundKeeps(s, buf[..], e, was, status, cut, n, c);
      }
      ran, ok := n.ran, n.ok;
    }

    /** strcspn with the characters that may end a command. */
    method SpanFrom(p: nat, ghost e: nat) returns (r: nat)
      requires Ended(buf[..], p, e)
      ensures r == p + Span(buf[p..e])
    {
      r := p;
      while buf[r] != NUL && !EndsCommand(buf[r])
        invariant p <= r <= e && p + Span(buf[p..e]) == r + Span(buf[r..e])
        decreases e - r
      {
        assert buf[r..e][1..] == buf[r + 1..e];
        r := r + 1;
      }
      if buf[r] != NUL {
        assert buf[r..e][0] == buf[r];
      }
    }

    method StrLen(p: nat, ghost e: nat) returns (r: nat)
      requires Ended(buf[..], p, e)
      ensures r == e
    {
      r := p;
      while buf[r] != NUL
        invariant p <= r <= e
        decreases e - r
      {
        r := r + 1;
      }
    }
  }

  ghost predicate Holds(s: string, p: nat, e: nat, text: string) {
    Ended(s, p, e) && s[p..e] == text
  }

  /** A NUL in the place of the separator behind a word. */
  lemma {:induction false} Separated(s: string, u: string, b: nat, i: nat, e: nat, t: Token)
    requires Ended(s, b, e) && ScannedTo(s, b, i, e, t) && i < e && u == s[i := NUL]
    ensures Holds(u, b, i, t.text) && Holds(u, i + 1, e, t.rest)
  {
    assert u[b..i] == s[b..i] && u[i + 1..e] == s[i + 1..e];
  }

  // ----- the loop of nsh_parse -----

  /** Where the loop of nsh_parse is, or how it ended. */
  datatype Round = Round(done: bool, ok: bool, ran: seq<string>, start: nat, working: nat)

  /** What a round does at the cut it finds: s is the array before it and u the one after. */
  ghost predicate RoundIs(s: string, u: string, start: nat, working: nat, e: nat, past: seq<string>,
                          status: seq<string> -> bool, cut: Cut, n: Round) {
    && start <= working <= e < |s|
    && match cut
       case AtEnd => u == s && n == Round(true, status(past + [s[start..e]]), past + [s[start..e]], start, working)
       case AtSemicolon(ptr) =>
         && working <= ptr < e && u == s[ptr := NUL]
         && var ran := past + [s[start..ptr]]; n == Round(!status(ran), false, ran, ptr + 1, ptr + 1)
       case AtQuote(tmp) => u == s && working <= tmp < e && n == Round(false, false, past, start, tmp + 1)
       case Unclosed => u == s && n == Round(true, false, past, start, working)
  }

  /** A round gets nearer to the outcome: it ends with it, or leaves commands d that give the same. */
  ghost predicate Nearer(u: string, e: nat, was: Round, status: seq<string> -> bool, n: Round,
                         c: Commands, d: Commands) {
    if n.done then Outcome(n.ran, n.ok) == RunAll(was.ran, c, status)
    else
      && was.working < n.working && Splitting(u, n.start, n.working, e, d)
      && RunAll(n.ran, d, status) == RunAll(was.ran, c, status)
  }

  lemma {:induction false} RoundKeeps(s: string, u: string, e: nat, was: Round, status: seq<string> -> bool, cut: Cut,
                                     n: Round, c: Commands)
    returns (d: Commands)
    requires Splitting(s, was.start, was.working, e, c) && cut == Moved(NextCut(s[was.working..e]), was.working)
    requires RoundIs(s, u, was.start, was.working, e, was.ran, status, cut, n)
    ensures Nearer(u, e, was, status, n, c, d)
  {
    match cut
    case AtEnd => d := RoundEnds(s, u, e, was, status, cut, n, c);
    case AtSemicolon(_) => d := RoundRuns(s, u, e, was, status, cut, n, c);
    case AtQuote(_) => d := RoundPasses(s, u, e, was, status, cut, n, c);
    case Unclosed => d := RoundEnds(s, u, e, was, status, cut, n, c);
  }

  lemma {:induction false} RoundEnds(s: string, u: string, e: nat, was: Round, status: seq<string> -> bool, cut: Cut,
                                     n: Round, c: Commands)
    returns (d: Commands)
    requires Splitting(s, was.start, was.working, e, c) && cut == Moved(NextCut(s[was.working..e]), was.working)
    requires RoundIs(s, u, was.start, was.working, e, was.ran, status, cut, n)
    requires cut.AtEnd? || cut.Unclosed?
    ensures Nearer(u, e, was, status, n, c, d)
  {
    d := c;
    if cut.AtEnd? {
      SplitEnd(s, was.start, was.working, e, c);
      RunLast(was.ran, s[was.start..e], status);
    }
  }

  lemma {:induction false} RoundRuns(s: string, u: string, e: nat, was: Round, status: seq<string> -> bool, cut: Cut,
                                     n: Round, c: Commands)
    returns (d: Commands)
    requires Splitting(s, was.start, was.working, e, c) && cut == Moved(NextCut(s[was.working..e]), was.working)
    requires RoundIs(s, u, was.start, was.working, e, was.ran, status, cut, n)
    requires cut.AtSemicolon?
    ensures Nearer(u, e, was, status, n, c, d)
  {
    d := SplitSemicolon(s, was.start, was.working, cut.n, e, c);
    RunNext(was.ran, s[was.start..cut.n], c, d, status);
    assert n.done || Splitting(u, n.start, n.working, e, d);
  }

  lemma {:induction false} RoundPasses(s: string, u: string, e: nat, was: Round, status: seq<string> -> bool, cut: Cut,
                                     n: Round, c: Commands)
    returns (d: Commands)
    requires Splitting(s, was.start, was.working, e, c) && cut == Moved(NextCut(s[was.working..e]), was.working)
    requires RoundIs(s, u, was.start, was.working, e, was.ran, status, cut, n)
    requires cut.AtQuote?
    ensures Nearer(u, e, was, status, n, c, d)
  {
    d := c;
    SplitQuote(s, was.start, was.working, cut.n, e, c);
  }

  /** The command at start has been read up to working, and c are the commands from it on. */
  ghost predicate Splitting(s: string, start: nat, working: nat, e: nat, c: Commands) {
    && start <= working <= e && Ended(s, start, e)
    && c == Split(s[start..working], s[working..e])
  }

  /** The text from working to ptr and behind it. */
  lemma {:induction false} CutAt(s: string, start: nat, working: nat, ptr: nat, e: nat)
    requires start <= working <= ptr <= e <= |s|
    ensures s[start..working] + s[working..e][..ptr - working] == s[start..ptr]
    ensures s[working..e][ptr - working..] == s[ptr..e]
  {
  }

  /** A cut, as a place of the array. */
  function Moved(c: Cut, p: nat): Cut {
    match c
    case AtSemicolon(n) => AtSemicolon(p + n)
    case AtQuote(n) => AtQuote(p + n)
    case _ => c
  }

  lemma {:induction false} SplitEnd(s: string, start: nat, working: nat, e: nat, c: Commands)
    requires Splitting(s, start, working, e, c) && NextCut(s[working..e]) == AtEnd
    ensures c == Commands([s[start..e]], true)
  {
    assert s[start..working] + s[working..e] == s[start..e];
  }

  lemma {:induction false} RunLast(ran: seq<string>, c: string, status: seq<string> -> bool)
    ensures RunAll(ran, Commands([c], true), status) == Outcome(ran + [c], status(ran + [c]))
  {
    assert [c][1..] == [];
  }

  lemma {:induction false} RunNext(ran: seq<string>, command: string, c: Commands, d: Commands, status: seq<string> -> bool)
    requires c.list == [command] + d.list && c.closed == d.closed
    ensures var now := ran + [command];
            RunAll(ran, c, status) == if status(now) then RunAll(now, d, status) else Outcome(now, false)
  {
    assert c.(list := c.list[1..]) == d;
  }

  lemma {:induction false} SplitSemicolon(s: string, start: nat, working: nat, ptr: nat, e: nat, c: Commands) returns (d: Commands)
    requires Splitting(s, start, working, e, c) && working <= ptr < e
    requires NextCut(s[working..e]) == AtSemicolon(ptr - working)
    ensures c.list == [s[start..ptr]] + d.list && c.closed == d.closed
    ensures Splitting(s[ptr := NUL], ptr + 1, ptr + 1, e, d)
    ensures s[ptr := NUL][start..ptr] == s[start..ptr]
  {
    d := Split([], s[ptr + 1..e]);
    CutAt(s, start, working, ptr, e);
    CutAt(s, start, working, ptr + 1, e);
    SemicolonGoes(s[start..working], s[working..e], ptr - working, s[start..ptr], s[ptr + 1..e]);
    var u := s[ptr := NUL];
    assert u[ptr + 1..ptr + 1] == [] && u[ptr + 1..e] == s[ptr + 1..e];
  }

  lemma {:induction false} SemicolonGoes(done: string, rest: string, n: nat, command: string, more: string)
    requires n < |rest| && NextCut(rest) == AtSemicolon(n) && command == done + rest[..n] && more == rest[n + 1..]
    ensures var d := Split([], more); Split(done, rest) == Commands([command] + d.list, d.closed)
  {
  }

  lemma {:induction false} SplitQuote(s: string, start: nat, working: nat, tmp: nat, e: nat, c: Commands)
    requires Splitting(s, start, working, e, c) && working <= tmp < e
    requires NextCut(s[working..e]) == AtQuote(tmp - working)
    ensures Splitting(s, start, tmp + 1, e, c)
  {
    CutAt(s, start, working, tmp + 1, e);
    QuoteGoes(s[start..working], s[working..e], tmp - working, s[start..tmp + 1], s[tmp + 1..e]);
  }

  lemma {:induction false} QuoteGoes(done: string, rest: string, n: nat, after: string, more: string)
    requires n < |rest| && NextCut(rest) == AtQuote(n) && after == done + rest[..n + 1] && more == rest[n + 1..]
    ensures Split(done, rest) == Split(after, more)
  {
  }

  /** What a round of the word scan comes to. */
  datatype Progress = Goes | Stops | Fails

  /** The word scan has come to i: prev is NULL, or the place before i. */
  ghost predicate Scanning(s: string, b: nat, i: nat, e: nat, first: bool, f: Flags, t: Token) {
    && 1 <= b <= i <= e && Ended(s, b, e)
    && t == Scan(s[b..i], s[b - 1], if first then NUL else s[i - 1], s[i..e], f)
  }

  /** The word is the text before i, and what is left of the line stands behind i. */
  ghost predicate ScannedTo(s: string, b: nat, i: nat, e: nat, t: Token) {
    b <= i <= e < |s| && t.Token? && t.text == s[b..i] && t.rest == if i == e then [] else s[i + 1..e]
  }

  lemma {:induction false} Cut(s: string, b: nat, i: nat, e: nat)
    requires b <= i < e <= |s|
    ensures s[b..i] + [s[i]] == s[b..i + 1] && s[i..e][0] == s[i] && s[i..e][1..] == s[i + 1..e]
  {
  }

  /** The flags after a character that only joins the word. */
  ghost function Joined(s: string, i: nat, first: bool, f: Flags): Flags
    requires i < |s|
  {
    if i > 0 && !first && s[i - 1] == '\\' && !f.escaped then f.(escaped := true)
    else if s[i] == '\\' then f.(escaped := false)
    else Flags(false, f.squote, false)
  }

  lemma {:induction false} ScanChar(s: string, b: nat, i: nat, e: nat, first: bool, f: Flags, t: Token)
    requires Scanning(s, b, i, e, first, f, t) && i < e
    requires Looks(s, i, e, first, f) ==> !IsQuote(s[i]) && !IsSeparator(s[i])
    ensures Scanning(s, b, i + 1, e, false, Joined(s, i, first, f), t)
  {
    Cut(s, b, i, e);
  }

  /** The loop is at a character that is looked at. */
  ghost predicate Looks(s: string, i: nat, e: nat, first: bool, f: Flags)
    requires i < e <= |s|
  {
    (i > 0 && !first && s[i - 1] == '\\' ==> f.escaped) && s[i] != '\\'
  }

  lemma {:induction false} ScanOpen(s: string, b: nat, i: nat, e: nat, first: bool, f: Flags, t: Token)
    requires Scanning(s, b, i, e, first, f, t) && i < e && Looks(s, i, e, first, f)
    requires IsQuote(s[i]) && Find(s[i + 1..e], s[i], false) == e - i - 1
    ensures t == Unmatched
  {
    Cut(s, b, i, e);
  }

  lemma {:induction false} ScanStop(s: string, b: nat, i: nat, e: nat, first: bool, f: Flags, t: Token)
    requires Scanning(s, b, i, e, first, f, t) && i < e && Looks(s, i, e, first, f)
    requires IsSeparator(s[i])
    ensures ScannedTo(s, b, i, e, t) && t.squote == f.squote && !t.quoted
  {
    Cut(s, b, i, e);
  }

  lemma {:induction false} ScanFinish(s: string, b: nat, i: nat, e: nat, first: bool, f: Flags, t: Token)
    requires Scanning(s, b, i, e, first, f, t) && s[i] == NUL
    ensures i == e && ScannedTo(s, b, i, e, t) && t.squote == f.squote && t.quoted == f.quoted
  {
  }

  /** The scan at a quote that is closed at q. */
  lemma {:induction false} ScanPair(s: string, b: nat, i: nat, q: nat, e: nat, first: bool, f: Flags, t: Token)
    requires Scanning(s, b, i, e, first, f, t) && i < q < e && Looks(s, i, e, first, f)
    requires IsQuote(s[i]) && q == i + 1 + Find(s[i + 1..e], s[i], false)
    ensures var text := if s[i] == '`' then s[b..i] + [s[i]] + s[i + 1..q] + [s[i]] else s[b..i] + s[i + 1..q];
            t == Scan(text, s[b - 1], Last(text, s[b - 1]), s[q + 1..e], Flags(false, f.squote || s[i] == '\'', true))
  {
    Cut(s, b, i, e);
    assert s[i + 1..e][..q - i - 1] == s[i + 1..q];
    assert s[i + 1..e][q - i..] == s[q + 1..e];
  }

  lemma {:induction false} ScanBack(s: string, b: nat, i: nat, q: nat, e: nat, first: bool, f: Flags, t: Token)
    requires Scanning(s, b, i, e, first, f, t) && i < q < e && Looks(s, i, e, first, f)
    requires s[i] == '`' && q == i + 1 + Find(s[i + 1..e], s[i], false) && s[q] == s[i]
    ensures Scanning(s, b, q + 1, e, false, Flags(false, f.squote, true), t)
  {
    ScanPair(s, b, i, q, e, first, f, t);
    Kept(s, b, i, q);
  }

  lemma {:induction false} Kept(s: string, b: nat, i: nat, q: nat)
    requires b <= i < q < |s|
    ensures s[b..i] + [s[i]] + s[i + 1..q] + [s[q]] == s[b..q + 1]
    ensures Last(s[b..q + 1], NUL) == s[q]
  {
  }

  /** The quotes at i and q have been removed from s, which gave u. */
  lemma {:induction false} ScanQuotes(s: string, u: string, b: nat, i: nat, q: nat, e: nat, first: bool, f: Flags, t: Token)
    requires Scanning(s, b, i, e, first, f, t) && i < q < e && Looks(s, i, e, first, f)
    requires (s[i] == '\'' || s[i] == '"') && q == i + 1 + Find(s[i + 1..e], s[i], false)
    requires |u| == |s|
    requires forall k :: i <= k < q - 1 ==> u[k] == s[k + 1]
    requires forall k :: q - 1 <= k < e - 1 ==> u[k] == s[k + 2]
    requires forall k :: 0 <= k < i || e - 1 <= k < |s| ==> u[k] == s[k]
    ensures Scanning(u, b, q - 1, e - 2, false, Flags(false, f.squote || s[i] == '\'', true), t)
  {
    ScanPair(s, b, i, q, e, first, f, t);
    Removed(s, u, b, i, q, e);
  }

  lemma {:induction false} Removed(s: string, u: string, b: nat, i: nat, q: nat, e: nat)
    requires 1 <= b <= i < q < e < |s| == |u| && Ended(s, b, e)
    requires forall k :: i <= k < q - 1 ==> u[k] == s[k + 1]
    requires forall k :: q - 1 <= k < e - 1 ==> u[k] == s[k + 2]
    requires forall k :: 0 <= k < i || e - 1 <= k < |s| ==> u[k] == s[k]
    ensures s[b..i] + s[i + 1..q] == u[b..q - 1] && Last(u[b..q - 1], s[b - 1]) == u[q - 2] && u[b - 1] == s[b - 1]
    ensures s[q + 1..e] == u[q - 1..e - 2] && Ended(u, b, e - 2)
  {
    assert s[b..i] + s[i + 1..q] == u[b..q - 1];
    assert s[q + 1..e] == u[q - 1..e - 2];
  }

  /** The text up to ptr is done, and what follows gives the rest of the goal. */
  ghost predicate Going(s: string, p: nat, ptr: nat, end: nat, quoted: bool, goal: string) {
    p <= ptr <= end && Ended(s, p, end) && s[p..ptr] + UnescapeFrom(s[ptr..end], quoted) == goal
  }

  lemma {:induction false} GoStart(s: string, p: nat, e: nat)
    requires Ended(s, p, e)
    ensures Going(s, p, p, e, false, Unescape(s[p..e]))
  {
    assert s[p..p] + Unescape(s[p..e]) == Unescape(s[p..e]);
  }

  lemma {:induction false} GoShift(s: string, t: string, p: nat, ptr: nat, end: nat, goal: string)
    requires Going(s, p, ptr, end, false, goal) && ptr < end && s[ptr] == '\\' && |t| == |s|
    requires forall i :: ptr <= i < end ==> t[i] == s[i + 1]
    requires forall i :: 0 <= i < ptr || end <= i < |s| ==> t[i] == s[i]
    ensures Going(t, p, ptr, end - 1, true, goal)
  {
    UnescapeMove(s[ptr..end], false);
    assert t[p..ptr] == s[p..ptr];
    MovedUp(s, t, ptr, end);
  }

  lemma {:induction false} MovedUp(s: string, t: string, ptr: nat, end: nat)
    requires ptr < end < |s| && |t| == |s| && forall i :: ptr <= i < end ==> t[i] == s[i + 1]
    ensures t[ptr..end - 1] == s[ptr..end][1..]
  {
    var a, b := t[ptr..end - 1], s[ptr..end][1..];
    forall i | 0 <= i < |a| ensures a[i] == b[i] {
      assert a[i] == t[ptr + i] && b[i] == s[ptr + i + 1];
    }
  }

  lemma {:induction false} GoNext(s: string, p: nat, ptr: nat, end: nat, quoted: bool, goal: string)
    requires Going(s, p, ptr, end, quoted, goal) && ptr < end && (s[ptr] != '\\' || quoted)
    ensures Going(s, p, ptr + 1, end, false, goal)
  {
    UnescapeMove(s[ptr..end], quoted);
    Cut(s, p, ptr, end);
    Assoc(s[p..ptr], [s[ptr]], UnescapeFrom(s[ptr + 1..end], false));
  }

  lemma {:induction false} GoEnd(s: string, p: nat, ptr: nat, end: nat, quoted: bool, goal: string)
    requires Going(s, p, ptr, end, quoted, goal) && s[ptr] == NUL
    ensures ptr == end && s[p..end] == goal
  {
    assert s[ptr..end] == [] && s[p..ptr] + [] == s[p..ptr];
  }
}
