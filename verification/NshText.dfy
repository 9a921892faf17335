/**
 The text of a command line: escapes, quotes, words and commands separated by semicolons. A line is
 a string without the terminating NUL.
 */
module NshText {
  import opened Basics

  predicate IsSeparator(c: char) { c == ' ' || c == '\t' || c == '\n' }

  predicate IsQuote(c: char) { c == '\'' || c == '"' || c == '`' }

  // ----- escapes -----

  /** Whether the character after s is escaped, when the first character of s is (or is not). */
  predicate After(s: string, quoted: bool) {
    if s == [] then quoted else After(s[1..], s[0] == '\\' && !quoted)
  }

  /** The number of backslashes that s ends with. */
  function Trailing(s: string): nat {
    if s == [] || s[|s| - 1] != '\\' then 0 else 1 + Trailing(s[..|s| - 1])
  }

  lemma {:induction false} AfterSnoc(s: string, c: char, quoted: bool)
    ensures After(s + [c], quoted) == (c == '\\' && !After(s, quoted))
  {
    if s != [] {
      AfterSnoc(s[1..], c, s[0] == '\\' && !quoted);
      assert (s + [c])[1..] == s[1..] + [c];
    }
  }

  /** A character is escaped exactly when an odd number of backslashes stands before it. */
  lemma {:induction false} EscapedIsOdd(s: string)
    ensures After(s, false) <==> Trailing(s) % 2 == 1
  {
    if s != [] {
      var front := s[..|s| - 1];
      assert s == front + [s[|s| - 1]];
      AfterSnoc(front, s[|s| - 1], false);
      EscapedIsOdd(front);
    }
  }

  /** nsh_strchr: the first place of ch, |s| if there is none; quoted says whether the first character is
      escaped. */
  function Find(s: string, ch: char, quoted: bool): (r: nat)
    ensures r <= |s|
  {
    if s == [] then 0
    else if s[0] == '\\' && !quoted then 1 + Find(s[1..], ch, true)
    else if s[0] == ch && !quoted then 0
    else 1 + Find(s[1..], ch, false)
  }

  /** An occurrence of ch that is not escaped. */
  ghost predicate Bare(s: string, i: nat, ch: char)
    requires i < |s|
  {
    s[i] == ch && Trailing(s[..i]) % 2 == 0
  }

  /** nsh_strchr gives the first unescaped occurrence: it never stops at an escaped one and never
      passes an unescaped one. */
  lemma {:induction false} FindExact(s: string, ch: char)
    requires ch != '\\'
    ensures var r := Find(s, ch, false);
            && (r < |s| ==> Bare(s, r, ch))
            && (forall i :: 0 <= i < r ==> !Bare(s, i, ch))
  {
    var r := Find(s, ch, false);
    forall i | 0 <= i < |s| ensures Bare(s, i, ch) == (s[i] == ch && !After(s[..i], false)) {
      EscapedIsOdd(s[..i]);
    }
    FindIs(s, ch, false);
  }

  lemma {:induction false} FindIs(s: string, ch: char, quoted: bool)
    requires ch != '\\'
    ensures var r := Find(s, ch, quoted);
            && (r < |s| ==> s[r] == ch && !After(s[..r], quoted))
            && (forall i :: 0 <= i < r ==> s[i] != ch || After(s[..i], quoted))
  {
    if s != [] && (s[0] != ch || quoted) {
      var r, next := Find(s, ch, quoted), s[0] == '\\' && !quoted;
      FindIs(s[1..], ch, next);
      forall i | 0 < i <= |s| ensures After(s[..i], quoted) == After(s[1..][..i - 1], next) {
        assert s[..i][1..] == s[1..][..i - 1];
      }
      forall i | 0 <= i < r ensures s[i] != ch || After(s[..i], quoted) {
        if i > 0 {
          assert s[i] == s[1..][i - 1];
        }
      }
    }
  }

  /** Where ch does not occur unescaped in body, the search goes on behind it. */
  lemma {:induction false} FindOver(body: string, tail: string, ch: char, quoted: bool)
    requires Find(body, ch, quoted) == |body|
    ensures Find(body + tail, ch, quoted) == |body| + Find(tail, ch, After(body, quoted))
  {
    if body == [] {
      assert body + tail == tail;
    } else {
      assert (body + tail)[1..] == body[1..] + tail;
      FindOver(body[1..], tail, ch, body[0] == '\\' && !quoted);
    }
  }

  lemma {:induction false} FindAbsent(s: string, ch: char, quoted: bool)
    requires ch !in s
    ensures Find(s, ch, quoted) == |s|
  {
    if s != [] {
      FindAbsent(s[1..], ch, s[0] == '\\' && !quoted);
    }
  }

  /** nsh_dequote: each backslash goes and the character after it stays. */
  function Unescape(s: string): (r: string)
    ensures |r| <= |s|
  {
    if s == [] then []
    else if s[0] != '\\' then [s[0]] + Unescape(s[1..])
    else if |s| == 1 then []
    else [s[1]] + Unescape(s[2..])
  }

  /** The characters with a meaning between double quotes. */
  predicate IsSpecial(c: char) { c == '\\' || c == '"' || c == '`' || c == '$' }

  function Escape(s: string): (r: string)
    ensures |s| <= |r|
  {
    if s == [] then [] else EscapeOne(s[0]) + Escape(s[1..])
  }

  function EscapeOne(c: char): (r: string)
    ensures 1 <= |r| <= 2 && r[|r| - 1] == c
  {
    if IsSpecial(c) then ['\\', c] else [c]
  }

  lemma {:induction false} UnescapeOne(c: char, t: string)
    ensures Unescape(EscapeOne(c) + t) == [c] + Unescape(t)
  {
    if IsSpecial(c) {
      assert (['\\', c] + t)[2..] == t;
    } else {
      assert ([c] + t)[1..] == t;
    }
  }

  /** Escaping is undone, whatever follows. */
  lemma {:induction false} UnescapeEscape(s: string, tail: string)
    ensures Unescape(Escape(s) + tail) == s + Unescape(tail)
  {
    if s == [] {
      assert Escape(s) + tail == tail;
    } else {
      UnescapeEscape(s[1..], tail);
      UnescapeOne(s[0], Escape(s[1..]) + tail);
      Assoc(EscapeOne(s[0]), Escape(s[1..]), tail);
      Assoc([s[0]], s[1..], Unescape(tail));
      assert [s[0]] + s[1..] == s;
    }
  }

  /** An escaped text hides every special character, and leaves nothing escaped behind it. */
  lemma {:induction false} EscapeHides(s: string, ch: char)
    requires IsSpecial(ch) && ch != '\\'
    ensures Find(Escape(s), ch, false) == |Escape(s)| && !After(Escape(s), false)
  {
    if s != [] {
      EscapeHides(s[1..], ch);
      var e, rest := Escape(s), Escape(s[1..]);
      if IsSpecial(s[0]) {
        assert e[1..] == [s[0]] + rest;
        assert e[1..][1..] == rest;
      } else {
        assert e[1..] == rest;
      }
    }
  }

  lemma {:induction false} EscapeEnds(s: string)
    ensures s == [] <==> Escape(s) == []
    ensures s != [] ==> Escape(s)[|Escape(s)| - 1] == s[|s| - 1]
  {
    if |s| > 1 {
      EscapeEnds(s[1..]);
    }
  }

  // ----- words -----

  /** One word cut from a line: its raw text, what is left of the line, whether a single quote was in it,
      and the flag that is to keep a quoted word from being taken for an alias. */
  datatype Token = Token(text: string, rest: string, squote: bool, quoted: bool) | Unmatched

  /** The flags of the word scan. */
  datatype Flags = Flags(escaped: bool, squote: bool, quoted: bool)

  /** The character the scan looks back at: the last one of the word so far, or the one before the word. */
  function Last(done: string, before: char): char {
    if done == [] then before else done[|done| - 1]
  }

  /** The loop of nsh_argument. The word so far is done and prev the character before rest (NUL at the
      start of the word); before is the character in front of the word. */
  function Scan(done: string, before: char, prev: char, rest: string, f: Flags): Token
    decreases |rest|
  {
    if rest == [] then Token(done, [], f.squote, f.quoted)
    else
      var c := rest[0];
      if prev == '\\' && !f.escaped then Scan(done + [c], before, c, rest[1..], f.(escaped := true))
      else if c == '\\' then Scan(done + [c], before, c, rest[1..], f.(escaped := false))
      else if IsQuote(c) then
        var r := Find(rest[1..], c, false);
        if r == |rest[1..]| then Unmatched
        else
          var body, tail := rest[1..][..r], rest[1..][r + 1..];
          var text := if c == '`' then done + [c] + body + [c] else done + body;
          Scan(text, before, Last(text, before), tail, Flags(false, f.squote || c == '\'', true))
      else if IsSeparator(c) then Token(done, rest[1..], f.squote, false)
      else Scan(done + [c], before, c, rest[1..], Flags(false, f.squote, false))
  }

  const Start := Flags(false, false, false)

  /** The line without the separators in front, and the character before what is left. */
  function Skip(line: string): (r: string)
    ensures |r| <= |line|
  {
    if line != [] && IsSeparator(line[0]) then Skip(line[1..]) else line
  }

  function Before(line: string, before: char): char {
    if line != [] && IsSeparator(line[0]) then Before(line[1..], line[0]) else before
  }

  /** A raw word in which no backquote and no dollar sign is unescaped only loses its backslashes; any
      other is replaced as env says. */
  ghost predicate Plain(text: string) {
    Find(text, '`', false) == |text| && Find(text, '$', false) == |text|
  }

  ghost function Expanded(t: Token, env: string -> string): string
    requires t.Token?
  {
    if t.squote then t.text
    else if Plain(t.text) then Unescape(t.text)
    else env(t.text)
  }

  /** What nsh_argument finds: nothing, the sign for input from a file, or a word. */
  datatype Arg = NoArg | Input(rest: string) | Word(token: Token)

  function FirstArg(line: string, before: char): (r: Arg)
    ensures r.Input? ==> |r.rest| < |line|
    ensures r.Word? ==> r.token.Token?
  {
    var s := Skip(line);
    if s == [] || s[0] == '#' then NoArg
    else if s[0] == '<' then Input(s[1..])
    else
      var t := Scan([], Before(line, before), NUL, s, Start);
      if t.Unmatched? then NoArg else Word(t)
  }

  /** The words of a line: nsh_argument, called until it gives none. */
  ghost function Args(line: string, before: char, env: string -> string): seq<string>
    decreases |line|
  {
    match FirstArg(line, before)
    case NoArg => []
    case Input(rest) => ["<"] + Args(rest, '<', env)
    case Word(t) =>
      ScanGrows([], Before(line, before), NUL, Skip(line), Start);
      [Expanded(t, env)] + Args(t.rest, NUL, env)
  }

  /** The scan only ever adds to the word, takes from the line, and keeps the single-quote flag. */
  lemma {:induction false} ScanGrows(done: string, before: char, prev: char, rest: string, f: Flags)
    ensures var t := Scan(done, before, prev, rest, f);
            t.Token? ==>
              && done <= t.text && (f.squote ==> t.squote)
              && |t.rest| <= |rest| && (rest != [] ==> |t.rest| < |rest|)
    decreases |rest|
  {
    if rest != [] {
      var c := rest[0];
      if prev == '\\' && !f.escaped {
        ScanGrows(done + [c], before, c, rest[1..], f.(escaped := true));
      } else if c == '\\' {
        ScanGrows(done + [c], before, c, rest[1..], f.(escaped := false));
      } else if IsQuote(c) {
        var r := Find(rest[1..], c, false);
        if r < |rest[1..]| {
          var body, tail := rest[1..][..r], rest[1..][r + 1..];
          var text := if c == '`' then done + [c] + body + [c] else done + body;
          assert done <= text;
          ScanGrows(text, before, Last(text, before), tail, Flags(false, f.squote || c == '\'', true));
        }
      } else if !IsSeparator(c) {
        ScanGrows(done + [c], before, c, rest[1..], Flags(false, f.squote, false));
      }
    }
  }

  // ----- quoted words come back -----

  /** Quoted words, one blank between each two. */
  function Line(q: char, bodies: seq<string>): string
    decreases |bodies|, 0
  {
    if bodies == [] then []
    else [q] + bodies[0] + [q] + Tail(q, bodies[1..])
  }

  function Tail(q: char, bodies: seq<string>): string
    decreases |bodies|, 1
  {
    if bodies == [] then [] else [' '] + Line(q, bodies)
  }

  /** The scan of a word that starts with a quote. */
  lemma {:induction false} ScanQuote(q: char, rest: string, before: char)
    requires q == '\'' || q == '"'
    ensures var r := Find(rest, q, false);
            Scan([], before, NUL, [q] + rest, Start) ==
            if r == |rest| then Unmatched
            else Scan(rest[..r], before, Last(rest[..r], before), rest[r + 1..], Flags(false, q == '\'', true))
  {
    var r := Find(rest, q, false);
    assert ([q] + rest)[1..] == rest;
    if r < |rest| {
      assert [] + rest[..r] == rest[..r];
    }
  }

  /** The scan of a quoted word passes its closing quote, and goes on behind it. */
  lemma {:induction false} WordScan(q: char, body: string, tail: string, before: char)
    requires q == '\'' || q == '"'
    requires Find(body, q, false) == |body| && !After(body, false)
    ensures Scan([], before, NUL, [q] + body + [q] + tail, Start)
         == Scan(body, before, Last(body, before), tail, Flags(false, q == '\'', true))
  {
    var rest := body + ([q] + tail);
    FindOver(body, [q] + tail, q, false);
    assert [q] + body + [q] + tail == [q] + rest;
    assert rest[..|body|] == body && rest[|body| + 1..] == tail;
    ScanQuote(q, rest, before);
  }

  /** The search for a closing quote that the body escapes goes on behind it. */
  lemma {:induction false} FindOpen(body: string, tail: string, q: char)
    requires Find(body, q, false) == |body| && After(body, false)
    ensures var rest := body + ([q] + tail);
            var r := Find(rest, q, false);
            r == |rest| || (tail != [] && body + [q] <= rest[..r])
  {
    FindOver(body, [q] + tail, q, false);
    assert ([q] + tail)[1..] == tail;
    var rest := body + ([q] + tail);
    assert rest[..|body| + 1] == body + [q];
  }

  /** A word whose body escapes the closing quote takes that quote for text. */
  lemma {:induction false} WordOpen(q: char, body: string, tail: string, before: char)
    requires q == '\'' || q == '"'
    requires Find(body, q, false) == |body| && After(body, false)
    ensures var t := Scan([], before, NUL, [q] + body + [q] + tail, Start);
            t.Token? ==> tail != [] && body + [q] <= t.text && (q == '\'' ==> t.squote)
  {
    var rest := body + ([q] + tail);
    assert [q] + body + [q] + tail == [q] + rest;
    FindOpen(body, tail, q);
    ScanQuote(q, rest, before);
    var r := Find(rest, q, false);
    if r < |rest| {
      ScanGrows(rest[..r], before, Last(rest[..r], before), rest[r + 1..], Flags(false, q == '\'', true));
    }
  }

  /** A word before a blank: it ends there, unless the character in front of the blank is a backslash. */
  lemma {:induction false} WordBlank(q: char, body: string, more: string, before: char)
    requires q == '\'' || q == '"'
    requires Find(body, q, false) == |body| && !After(body, false)
    ensures var t := Scan([], before, NUL, [q] + body + [q] + ([' '] + more), Start);
            if Last(body, before) != '\\' then t == Token(body, more, q == '\'', false)
            else t.Token? ==> body + [' '] <= t.text && (q == '\'' ==> t.squote)
  {
    WordScan(q, body, [' '] + more, before);
    assert ([' '] + more)[1..] == more;
    ScanGrows(body + [' '], before, ' ', more, Flags(true, q == '\'', true));
  }

  /** The words of a line that starts with a quote. */
  lemma {:induction false} ArgsHead(line: string, before: char, env: string -> string)
    requires line != [] && IsQuote(line[0])
    ensures var t := Scan([], before, NUL, line, Start);
            && (t.Token? ==> |t.rest| < |line|)
            && Args(line, before, env) == if t.Unmatched? then [] else [Expanded(t, env)] + Args(t.rest, NUL, env)
  {
    ScanGrows([], before, NUL, line, Start);
  }

  /** The flag that is to keep a quoted word from alias expansion does so only for the last word. */
  lemma {:induction false} AliasGuard(q: char, body: string, more: string, before: char)
    requires q == '\'' || q == '"'
    requires Find(body, q, false) == |body| && !After(body, false) && Last(body, before) != '\\'
    ensures Scan([], before, NUL, [q] + body + [q], Start) == Token(body, [], q == '\'', true)
    ensures Scan([], before, NUL, [q] + body + [q] + ([' '] + more), Start) == Token(body, more, q == '\'', false)
  {
    WordScan(q, body, [], before);
    assert [q] + body + [q] + [] == [q] + body + [q];
    WordBlank(q, body, more, before);
  }

  // ----- single quotes -----

  /** No word but the last ends in a backslash (an empty first word ends in what is before the line), and
      the last ends in an even number of them. */
  ghost predicate Safe(ws: seq<string>, before: char) {
    if ws == [] then true
    else if |ws| == 1 then Trailing(ws[0]) % 2 == 0
    else Last(ws[0], before) != '\\' && Safe(ws[1..], NUL)
  }

  lemma {:induction false} SingleLast(w: string, before: char, env: string -> string)
    requires '\'' !in w
    ensures Args(['\''] + w + ['\''], before, env) == [w] <==> Trailing(w) % 2 == 0
  {
    var line := ['\''] + w + ['\''];
    assert line == line + [];
    FindAbsent(w, '\'', false);
    EscapedIsOdd(w);
    ArgsHead(line, before, env);
    if After(w, false) {
      WordOpen('\'', w, [], before);
    } else {
      WordScan('\'', w, [], before);
    }
  }

  /** A raw word longer than w is not w. */
  lemma {:induction false} NotFirst(line: string, before: char, env: string -> string, w: string)
    requires line != [] && IsQuote(line[0])
    requires var t := Scan([], before, NUL, line, Start); t.Token? ==> t.squote && |w| < |t.text|
    ensures var args := Args(line, before, env); args == [] || args[0] != w
  {
    ArgsHead(line, before, env);
  }

  /** The first of several words comes back, and the others as from a line of their own, exactly when it
      does not end in a backslash. */
  lemma {:induction false} SingleMore(w: string, more: string, before: char, env: string -> string)
    requires '\'' !in w
    ensures var args := Args(['\''] + w + ['\''] + ([' '] + more), before, env);
            if Last(w, before) != '\\' then args == [w] + Args(more, NUL, env)
            else args == [] || args[0] != w
  {
    var line := ['\''] + w + ['\''] + ([' '] + more);
    FindAbsent(w, '\'', false);
    EscapedIsOdd(w);
    if After(w, false) {
      WordOpen('\'', w, [' '] + more, before);
      NotFirst(line, before, env, w);
    } else {
      WordBlank('\'', w, more, before);
      if Last(w, before) == '\\' {
        NotFirst(line, before, env, w);
      } else {
        ArgsHead(line, before, env);
      }
    }
  }

  /** Words in single quotes come back as they are, whatever the environment, if and only if they are
      safe. */
  lemma {:induction false} SingleQuotes(ws: seq<string>, before: char, env: string -> string)
    requires forall i :: 0 <= i < |ws| ==> '\'' !in ws[i]
    ensures Args(Line('\'', ws), before, env) == ws <==> Safe(ws, before)
  {
    if ws == [] {
    } else if |ws| == 1 {
      SingleLast(ws[0], before, env);
      assert Line('\'', ws) == ['\''] + ws[0] + ['\''];
      assert ws == [ws[0]];
    } else {
      var more := Line('\'', ws[1..]);
      SingleMore(ws[0], more, before, env);
      SingleQuotes(ws[1..], NUL, env);
      assert Line('\'', ws) == ['\''] + ws[0] + ['\''] + ([' '] + more);
      assert ws == [ws[0]] + ws[1..];
    }
  }

  // ----- double quotes -----

  function EscapeAll(ws: seq<string>): (r: seq<string>)
    ensures |r| == |ws|
  {
    if ws == [] then [] else [Escape(ws[0])] + EscapeAll(ws[1..])
  }

  /** No word but the last ends in a backslash. */
  ghost predicate Ends(ws: seq<string>, before: char) {
    |ws| > 1 ==> Last(ws[0], before) != '\\' && Ends(ws[1..], NUL)
  }

  /** An escaped word comes out of the expansion as it was. */
  lemma {:induction false} ExpandedIs(w: string, rest: string, quoted: bool, env: string -> string)
    ensures Expanded(Token(Escape(w), rest, false, quoted), env) == w
  {
    EscapeHides(w, '`');
    EscapeHides(w, '$');
    UnescapeEscape(w, "");
    assert Escape(w) + "" == Escape(w);
  }

  lemma {:induction false} DoubleLast(w: string, before: char, env: string -> string)
    ensures Args(['"'] + Escape(w) + ['"'], before, env) == [w]
  {
    var line := ['"'] + Escape(w) + ['"'];
    assert line == line + [];
    EscapeHides(w, '"');
    ArgsHead(line, before, env);
    WordScan('"', Escape(w), [], before);
    ExpandedIs(w, [], true, env);
  }

  lemma {:induction false} DoubleMore(w: string, more: string, before: char, env: string -> string)
    requires Last(w, before) != '\\'
    ensures Args(['"'] + Escape(w) + ['"'] + ([' '] + more), before, env) == [w] + Args(more, NUL, env)
  {
    EscapeHides(w, '"');
    EscapeEnds(w);
    ArgsHead(['"'] + Escape(w) + ['"'] + ([' '] + more), before, env);
    WordBlank('"', Escape(w), more, before);
    ExpandedIs(w, more, false, env);
  }

  /** A raw text that only begins like the escaped word never gives that word in every environment. */
  lemma {:induction false} Longer(w: string, t: Token)
    requires t.Token? && Escape(w) + [' '] <= t.text
    ensures Expanded(t, x => w + " ") != w
  {
    if !t.squote {
      var more := t.text[|Escape(w)|..];
      assert t.text == Escape(w) + more && more[0] == ' ';
      UnescapeEscape(w, more);
    }
  }

  lemma {:induction false} DoubleBad(w: string, more: string, before: char)
    requires Last(w, before) == '\\'
    ensures var args := Args(['"'] + Escape(w) + ['"'] + ([' '] + more), before, x => w + " ");
            args == [] || args[0] != w
  {
    var line := ['"'] + Escape(w) + ['"'] + ([' '] + more);
    EscapeHides(w, '"');
    EscapeEnds(w);
    ArgsHead(line, before, x => w + " ");
    WordBlank('"', Escape(w), more, before);
    var t := Scan([], before, NUL, line, Start);
    if t.Token? {
      Longer(w, t);
    }
  }

  lemma {:induction false} LineDouble(ws: seq<string>)
    requires |ws| > 1
    ensures Line('"', EscapeAll(ws)) == ['"'] + Escape(ws[0]) + ['"'] + ([' '] + Line('"', EscapeAll(ws[1..])))
  {
    assert EscapeAll(ws)[1..] == EscapeAll(ws[1..]);
  }

  lemma {:induction false} DoubleHolds(ws: seq<string>, before: char, env: string -> string)
    requires Ends(ws, before)
    ensures Args(Line('"', EscapeAll(ws)), before, env) == ws
  {
    if ws == [] {
    } else if |ws| == 1 {
      DoubleLast(ws[0], before, env);
      assert Line('"', EscapeAll(ws)) == ['"'] + Escape(ws[0]) + ['"'];
    } else {
      LineDouble(ws);
      DoubleMore(ws[0], Line('"', EscapeAll(ws[1..])), before, env);
      DoubleHolds(ws[1..], NUL, env);
    }
  }

  /** Where a word is not safe, some environment keeps the words from coming back. */
  lemma {:induction false} DoubleFails(ws: seq<string>, before: char) returns (env: string -> string)
    requires !Ends(ws, before)
    ensures Args(Line('"', EscapeAll(ws)), before, env) != ws
  {
    var w, more := ws[0], Line('"', EscapeAll(ws[1..]));
    LineDouble(ws);
    if Last(w, before) == '\\' {
      DoubleBad(w, more, before);
      env := x => w + " ";
    } else {
      env := DoubleFails(ws[1..], NUL);
      DoubleMore(w, more, before, env);
      assert ws == [w] + ws[1..];
    }
  }

  /** Any words, escaped and in double quotes, come back in every environment if and only if none but
      the last ends in a backslash. */
  lemma {:induction false} DoubleQuotes(ws: seq<string>, before: char)
    ensures (forall env :: Args(Line('"', EscapeAll(ws)), before, env) == ws) <==> Ends(ws, before)
  {
    if Ends(ws, before) {
      forall env ensures Args(Line('"', EscapeAll(ws)), before, env) == ws {
        DoubleHolds(ws, before, env);
      }
    } else {
      var env := DoubleFails(ws, before);
    }
  }

  // ----- several commands on a line -----

  predicate EndsCommand(c: char) { c == '"' || c == '\'' || c == '#' || c == ';' || c == '\n' }

  /** The characters before the first that may end a command. */
  function Span(s: string): (n: nat)
    ensures n <= |s| && (n < |s| ==> EndsCommand(s[n]))
  {
    if s == [] || EndsCommand(s[0]) then 0 else 1 + Span(s[1..])
  }

  /** The commands of a line, and whether every quote in it is closed. */
  datatype Commands = Commands(list: seq<string>, closed: bool)

  /** What ends the text at hand: the line, the semicolon at n, the closing quote at n, or a quote that
      is not closed. */
  datatype Cut = AtEnd | AtSemicolon(n: nat) | AtQuote(n: nat) | Unclosed

  function NextCut(rest: string): (c: Cut)
    ensures c.AtSemicolon? || c.AtQuote? ==> c.n < |rest|
  {
    var n := Span(rest);
    if n == |rest| || rest[n] == '\n' || rest[n] == '#' then AtEnd
    else if rest[n] == ';' then AtSemicolon(n)
    else
      var m := n + 1 + Find(rest[n + 1..], rest[n], false);
      if m == |rest| then Unclosed else AtQuote(m)
  }

  /** The loop of nsh_parse: done is the command so far. */
  function Split(done: string, rest: string): Commands
    decreases |rest|
  {
    match NextCut(rest)
    case AtEnd => Commands([done + rest], true)
    case AtSemicolon(n) =>
      var more := Split([], rest[n + 1..]);
      Commands([done + rest[..n]] + more.list, more.closed)
    case AtQuote(n) => Split(done + rest[..n + 1], rest[n + 1..])
    case Unclosed => Commands([], false)
  }

  /** A command with its quotes closed: text that needs no quotes, and quoted text. */
  datatype Piece = Raw(text: string) | Quoted(q: char, body: string)

  ghost predicate Whole(p: Piece) {
    match p
    case Raw(text) => forall c <- text :: c != '"' && c != '\'' && c != '#' && c != ';' && c != '\n'
    case Quoted(q, body) => (q == '"' || q == '\'') && Find(body, q, false) == |body| && !After(body, false)
  }

  ghost predicate WholeList(ps: seq<Piece>) {
    forall i :: 0 <= i < |ps| ==> Whole(ps[i])
  }

  ghost predicate AllWhole(cs: seq<seq<Piece>>) {
    forall i :: 0 <= i < |cs| ==> WholeList(cs[i])
  }

  function Print(p: Piece): string {
    match p
    case Raw(text) => text
    case Quoted(q, body) => [q] + body + [q]
  }

  function PrintAll(ps: seq<Piece>): string {
    if ps == [] then [] else Print(ps[0]) + PrintAll(ps[1..])
  }

  function Join(cs: seq<seq<Piece>>): string
    requires cs != []
  {
    if |cs| == 1 then PrintAll(cs[0]) else PrintAll(cs[0]) + ([';'] + Join(cs[1..]))
  }

  function Texts(cs: seq<seq<Piece>>): (r: seq<string>)
    ensures |r| == |cs|
  {
    if cs == [] then [] else [PrintAll(cs[0])] + Texts(cs[1..])
  }

  lemma {:induction false} SpanOver(text: string, rest: string)
    requires forall c <- text :: !EndsCommand(c)
    ensures Span(text + rest) == |text| + Span(rest)
  {
    if text == [] {
      assert text + rest == rest;
    } else {
      assert (text + rest)[1..] == text[1..] + rest;
      SpanOver(text[1..], rest);
    }
  }

  /** Text that ends no command only moves the cut. */
  lemma {:induction false} CutOver(text: string, rest: string)
    requires forall c <- text :: !EndsCommand(c)
    ensures var k, c := |text|, NextCut(rest);
            NextCut(text + rest) == match c
              case AtSemicolon(n) => AtSemicolon(k + n)
              case AtQuote(n) => AtQuote(k + n)
              case _ => c
  {
    SpanOver(text, rest);
    if Span(rest) < |rest| {
      Drop(text, rest, Span(rest) + 1);
    }
  }

  lemma {:induction false} SplitRaw(done: string, text: string, rest: string)
    requires forall c <- text :: !EndsCommand(c)
    ensures Split(done, text + rest) == Split(done + text, rest)
  {
    CutOver(text, rest);
    var c := NextCut(rest);
    if c.AtSemicolon? {
      Drop(text, rest, c.n + 1);
      Assoc(done, text, rest[..c.n]);
      SameSemicolon(done, text + rest, |text| + c.n, done + text, rest, c.n);
    } else if c.AtQuote? {
      Drop(text, rest, c.n + 1);
      Assoc(done, text, rest[..c.n + 1]);
      SameQuote(done, text + rest, |text| + c.n, done + text, rest, c.n);
    } else {
      Assoc(done, text, rest);
    }
  }

  /** Two places of the loop that are cut alike go on alike. */
  lemma {:induction false} SameSemicolon(d: string, s: string, m: nat, e: string, t: string, n: nat)
    requires m < |s| && n < |t| && NextCut(s) == AtSemicolon(m) && NextCut(t) == AtSemicolon(n)
    requires d + s[..m] == e + t[..n] && s[m + 1..] == t[n + 1..]
    ensures Split(d, s) == Split(e, t)
  {
  }

  lemma {:induction false} SameQuote(d: string, s: string, m: nat, e: string, t: string, n: nat)
    requires m < |s| && n < |t| && NextCut(s) == AtQuote(m) && NextCut(t) == AtQuote(n)
    requires d + s[..m + 1] == e + t[..n + 1] && s[m + 1..] == t[n + 1..]
    ensures Split(d, s) == Split(e, t)
  {
  }

  lemma {:induction false} Drop(text: string, rest: string, k: nat)
    requires 0 < k <= |rest|
    ensures (text + rest)[|text| + k..] == rest[k..]
    ensures (text + rest)[..|text| + k] == text + rest[..k]
    ensures (text + rest)[..|text| + k - 1] == text + rest[..k - 1]
    ensures (text + rest)[|text| + k - 1] == rest[k - 1]
  {
  }

  lemma {:induction false} CutQuoted(q: char, body: string, rest: string)
    requires Whole(Quoted(q, body))
    ensures NextCut([q] + body + [q] + rest) == AtQuote(|body| + 1)
  {
    var t := [q] + body + [q] + rest;
    assert Span(t) == 0;
    FindOver(body, [q] + rest, q, false);
    assert t[1..] == body + ([q] + rest);
  }

  lemma {:induction false} SplitAfter(done: string, w: string, rest: string)
    requires w != [] && NextCut(w + rest) == AtQuote(|w| - 1)
    ensures Split(done, w + rest) == Split(done + w, rest)
  {
    assert (w + rest)[..|w|] == w && (w + rest)[|w|..] == rest;
  }

  lemma {:induction false} SplitQuoted(done: string, q: char, body: string, rest: string)
    requires Whole(Quoted(q, body))
    ensures Split(done, [q] + body + [q] + rest) == Split(done + ([q] + body + [q]), rest)
  {
    CutQuoted(q, body, rest);
    SplitAfter(done, [q] + body + [q], rest);
  }

  lemma {:induction false} SplitPieces(done: string, ps: seq<Piece>, rest: string)
    requires WholeList(ps)
    ensures Split(done, PrintAll(ps) + rest) == Split(done + PrintAll(ps), rest)
    decreases |ps|
  {
    if ps == [] {
      assert [] + rest == rest && done + [] == done;
    } else {
      var p, more := Print(ps[0]), PrintAll(ps[1..]);
      Assoc(p, more, rest);
      Assoc(done, p, more);
      match ps[0] {
        case Raw(text) => SplitRaw(done, text, more + rest);
        case Quoted(q, body) => SplitQuoted(done, q, body, more + rest);
      }
      SplitPieces(done + p, ps[1..], rest);
    }
  }

  /** Commands with a semicolon behind each, and what follows the last. */
  function Chain(cs: seq<seq<Piece>>, tail: string): string {
    if cs == [] then tail else PrintAll(cs[0]) + ([';'] + Chain(cs[1..], tail))
  }

  lemma {:induction false} SplitFirst(ps: seq<Piece>, more: string)
    requires WholeList(ps)
    ensures var end := Split([], more);
            Split([], PrintAll(ps) + ([';'] + more)) == Commands([PrintAll(ps)] + end.list, end.closed)
  {
    var c := PrintAll(ps);
    SplitPieces([], ps, [';'] + more);
    assert [] + c == c && c + [] == c && ([';'] + more)[1..] == more;
  }

  lemma {:induction false} SplitChain(cs: seq<seq<Piece>>, tail: string)
    requires AllWhole(cs)
    ensures var end := Split([], tail);
            Split([], Chain(cs, tail)) == Commands(Texts(cs) + end.list, end.closed)
    decreases |cs|
  {
    var end := Split([], tail);
    if cs == [] {
      assert [] + end.list == end.list;
    } else {
      SplitFirst(cs[0], Chain(cs[1..], tail));
      SplitChain(cs[1..], tail);
      Assoc([PrintAll(cs[0])], Texts(cs[1..]), end.list);
    }
  }

  /** Behind a # or a newline outside quotes no command begins: what follows is left with the command in
      front of it. */
  lemma {:induction false} SplitStops(cs: seq<seq<Piece>>, ps: seq<Piece>, c: char, x: string)
    requires AllWhole(cs) && WholeList(ps) && (c == '#' || c == '\n')
    ensures var tail := PrintAll(ps) + ([c] + x);
            Split([], Chain(cs, tail)) == Commands(Texts(cs) + [tail], true)
  {
    var tail := PrintAll(ps) + ([c] + x);
    SplitChain(cs, tail);
    assert [] + PrintAll(ps) == PrintAll(ps);
    SplitPieces([], ps, [c] + x);
    assert NextCut([c] + x) == AtEnd;
  }

  /** A command with a quote that is not closed is not run, but those before it are. */
  lemma {:induction false} SplitUnclosed(cs: seq<seq<Piece>>, ps: seq<Piece>, q: char, x: string)
    requires AllWhole(cs) && WholeList(ps) && (q == '"' || q == '\'') && Find(x, q, false) == |x|
    ensures Split([], Chain(cs, PrintAll(ps) + ([q] + x))) == Commands(Texts(cs), false)
  {
    SplitChain(cs, PrintAll(ps) + ([q] + x));
    SplitPieces([], ps, [q] + x);
    assert ([q] + x)[1..] == x && NextCut([q] + x) == Unclosed;
    assert Texts(cs) + [] == Texts(cs);
  }

  lemma {:induction false} JoinIsChain(cs: seq<seq<Piece>>)
    requires cs != []
    ensures var n := |cs| - 1; Join(cs) == Chain(cs[..n], PrintAll(cs[n])) && Texts(cs) == Texts(cs[..n]) + [PrintAll(cs[n])]
    decreases |cs|
  {
    var n := |cs| - 1;
    if n > 0 {
      JoinIsChain(cs[1..]);
      assert cs[1..][..n - 1] == cs[..n][1..];
    }
  }

  /** Commands whose quotes are closed, joined by semicolons, are split again. */
  lemma {:induction false} SplitJoin(cs: seq<seq<Piece>>)
    requires cs != [] && AllWhole(cs)
    ensures Split([], Join(cs)) == Commands(Texts(cs), true)
  {
    var n := |cs| - 1;
    JoinIsChain(cs);
    SplitChain(cs[..n], PrintAll(cs[n]));
    SplitPieces([], cs[n], []);
    assert PrintAll(cs[n]) + [] == PrintAll(cs[n]) == [] + PrintAll(cs[n]);
  }

  // ----- running them -----

  /** The commands run: one after the other, up to the first that fails. status is what a command
      gives when it is the last of those run so far. */
  datatype Outcome = Outcome(ran: seq<string>, ok: bool)

  ghost function RunAll(past: seq<string>, c: Commands, status: seq<string> -> bool): Outcome
    decreases |c.list|
  {
    if c.list == [] then Outcome(past, c.closed)
    else
      var now := past + [c.list[0]];
      if status(now) then RunAll(now, c.(list := c.list[1..]), status) else Outcome(now, false)
  }

  /** What ran of a list, in order: all of it when all succeed, and otherwise those up to the first that
      fails. */
  ghost predicate RanOf(o: Outcome, list: seq<string>, closed: bool, status: seq<string> -> bool) {
    && o.ran <= list && (forall k :: 0 < k < |o.ran| ==> status(o.ran[..k]))
    && (o.ok ==> closed && o.ran == list)
    && (o.ran != [] && status(o.ran) ==> o.ran == list && o.ok == closed)
    && (o.ran == [] ==> list == [] && o.ok == closed)
  }

  /** A joined line runs its commands so. */
  lemma {:induction false} RunsJoined(cs: seq<seq<Piece>>, status: seq<string> -> bool)
    requires cs != [] && AllWhole(cs)
    ensures RanOf(RunAll([], Split([], Join(cs)), status), Texts(cs), true, status)
  {
    SplitJoin(cs);
    RunsList([], Texts(cs), true, status);
  }

  /** A line with a quote that is not closed never succeeds, but runs the commands in front so. */
  lemma {:induction false} RunsUnclosed(cs: seq<seq<Piece>>, ps: seq<Piece>, q: char, x: string, status: seq<string> -> bool)
    requires AllWhole(cs) && WholeList(ps) && (q == '"' || q == '\'') && Find(x, q, false) == |x|
    ensures RanOf(RunAll([], Split([], Chain(cs, PrintAll(ps) + ([q] + x))), status), Texts(cs), false, status)
  {
    SplitUnclosed(cs, ps, q, x);
    RunsList([], Texts(cs), false, status);
  }

  lemma {:induction false} RunsList(past: seq<string>, list: seq<string>, closed: bool, status: seq<string> -> bool)
    requires forall k :: 0 < k <= |past| ==> status(past[..k])
    ensures RanOf(RunAll(past, Commands(list, closed), status), past + list, closed, status)
    decreases |list|
  {
    if list == [] {
      assert past + list == past && past[..|past|] == past;
    } else {
      var now := past + [list[0]];
      assert past + list == now + list[1..];
      assert forall k :: 0 < k <= |past| ==> now[..k] == past[..k];
      if status(now) {
        assert now[..|now|] == now;
        RunsList(now, list[1..], closed, status);
      }
    }
  }
}
