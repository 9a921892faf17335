/**
 Words without quotes, and parts of words: what the tokenizer makes of a line as it is mostly typed.
 The characters with a meaning are written out here.
 */
module NshWords {
  import opened Basics
  import opened NshText

  predicate IsBlank(c: char) { c == ' ' || c == '\t' || c == '\n' }

  ghost predicate Blanks(s: string) {
    forall c <- s :: IsBlank(c)
  }

  /** A character that has to be escaped outside quotes. */
  predicate HasMeaning(c: char) {
    IsBlank(c) || c == '\'' || c == '"' || c == '`' || c == '\\' || c == '$'
  }

  /** A character of a word, escaped where it must be; `#` and `<` only at the start. */
  function Guard(c: char, first: bool): (s: string)
    ensures s != []
  {
    if HasMeaning(c) || (first && (c == '#' || c == '<')) then ['\\', c] else [c]
  }

  function Print(w: string, first: bool): string {
    if w == [] then [] else Guard(w[0], first) + Print(w[1..], false)
  }

  // ----- scanning -----

  /** Nothing that the scan looks back at escapes the next character. */
  predicate Free(prev: char, f: Flags) {
    prev == '\\' ==> f.escaped
  }

  /** The scan passes one character. */
  lemma {:induction false} ScanGuard(done: string, before: char, prev: char, c: char, first: bool, rest: string, f: Flags)
    returns (g: Flags)
    requires Free(prev, f)
    ensures Free(c, g) && g.squote == f.squote
    ensures var s := Guard(c, first); Scan(done, before, prev, s + rest, f) == Scan(done + s, before, c, rest, g)
  {
    var s := Guard(c, first);
    if |s| == 2 {
      g := f.(escaped := true);
      var r := [c] + rest;
      assert s + rest == ['\\'] + r;
      assert (['\\'] + r)[1..] == r && r[1..] == rest;
      assert done + ['\\'] + [c] == done + s;
    } else {
      g := Flags(false, f.squote, false);
      assert (s + rest)[1..] == rest;
    }
  }

  /** And so a whole word. */
  lemma {:induction false} ScanPrint(done: string, before: char, prev: char, w: string, first: bool, rest: string, f: Flags)
    returns (p: char, g: Flags)
    requires Free(prev, f)
    ensures Free(p, g) && g.squote == f.squote
    ensures Scan(done, before, prev, Print(w, first) + rest, f) == Scan(done + Print(w, first), before, p, rest, g)
    decreases |w|
  {
    if w == [] {
      p, g := prev, f;
      assert [] + rest == rest && done + [] == done;
    } else {
      var s, more := Guard(w[0], first), Print(w[1..], false);
      g := ScanGuard(done, before, prev, w[0], first, more + rest, f);
      Assoc(s, more, rest);
      Assoc(done, s, more);
      p, g := ScanPrint(done + s, before, w[0], w[1..], false, rest, g);
    }
  }

  // ----- expansion -----

  lemma {:induction false} UnescapeGuard(c: char, first: bool, rest: string)
    ensures Unescape(Guard(c, first) + rest) == [c] + Unescape(rest)
  {
    var g := Guard(c, first);
    if |g| == 2 {
      assert (g + rest)[2..] == rest;
    } else {
      assert (g + rest)[1..] == rest;
    }
  }

  lemma {:induction false} UnescapePrint(w: string, first: bool, rest: string)
    ensures Unescape(Print(w, first) + rest) == w + Unescape(rest)
    decreases |w|
  {
    if w == [] {
      assert [] + rest == rest;
    } else {
      var more := Print(w[1..], false);
      Assoc(Guard(w[0], first), more, rest);
      UnescapeGuard(w[0], first, more + rest);
      UnescapePrint(w[1..], false, rest);
      Assoc([w[0]], w[1..], Unescape(rest));
      assert [w[0]] + w[1..] == w;
    }
  }

  /** A backslash goes and leaves the character behind it, whichever that is; the last may have none. Other
      characters stay. */
  lemma {:induction false} UnescapeExact(s: string, c: char, t: string)
    requires '\\' !in s
    ensures Unescape(s) == s && Unescape(s + ['\\']) == s && Unescape(s + (['\\', c] + t)) == s + ([c] + Unescape(t))
  {
    UnescapeOver(s, []);
    UnescapeOver(s, ['\\']);
    UnescapeOver(s, ['\\', c] + t);
    assert s + [] == s && (['\\', c] + t)[2..] == t;
  }

  lemma {:induction false} UnescapeOver(s: string, t: string)
    requires '\\' !in s
    ensures Unescape(s + t) == s + Unescape(t)
  {
    if s == [] {
      assert [] + t == t;
    } else {
      UnescapeOver(s[1..], t);
      assert (s + t)[1..] == s[1..] + t;
    }
  }

  /** No meaning shows. */
  lemma {:induction false} PrintHides(w: string, first: bool, ch: char)
    requires HasMeaning(ch) && ch != '\\'
    ensures Find(Print(w, first), ch, false) == |Print(w, first)| && !After(Print(w, first), false)
    decreases |w|
  {
    if w != [] {
      PrintHides(w[1..], false, ch);
      var g, rest := Guard(w[0], first), Print(w[1..], false);
      if |g| == 2 {
        assert (g + rest)[1..] == [w[0]] + rest;
        assert ([w[0]] + rest)[1..] == rest;
      } else {
        assert (g + rest)[1..] == rest;
      }
    }
  }

  lemma {:induction false} ExpandedPrint(w: string, rest: string, quoted: bool, env: string -> string)
    ensures Expanded(Token(Print(w, true), rest, false, quoted), env) == w
  {
    PrintHides(w, true, '`');
    PrintHides(w, true, '$');
    UnescapePrint(w, true, []);
    assert Print(w, true) + [] == Print(w, true);
  }

  // ----- one word -----

  lemma {:induction false} SkipIs(b: string, tail: string, before: char)
    requires Blanks(b)
    ensures Skip(b + tail) == Skip(tail) && Before(b + tail, before) == Before(tail, Last(b, before))
    decreases |b|
  {
    if b == [] {
      assert [] + tail == tail;
    } else {
      assert b[0] in b && (b + tail)[1..] == b[1..] + tail;
      SkipIs(b[1..], tail, b[0]);
    }
  }

  /** Blanks in front of a line change nothing but what stands before it. */
  lemma {:induction false} ArgsBlanks(b: string, tail: string, before: char, env: string -> string)
    requires Blanks(b)
    ensures Args(b + tail, before, env) == Args(tail, Last(b, before), env)
  {
    SkipIs(b, tail, before);
  }

  /** A word begins with nothing that is skipped or taken for something else. */
  lemma {:induction false} PrintBegins(w: string, rest: string)
    requires w != []
    ensures var s := Print(w, true) + rest;
            s != [] && !IsBlank(s[0]) && s[0] != '#' && s[0] != '<' && Skip(s) == s && forall x :: Before(s, x) == x
  {
    var s := Print(w, true) + rest;
    assert s[0] == Guard(w[0], true)[0];
  }

  /** The words of a line that begins with a word. */
  lemma {:induction false} ArgsWord(line: string, before: char, env: string -> string)
    requires line != [] && Skip(line) == line && Before(line, before) == before && line[0] != '#' && line[0] != '<'
    ensures var t := Scan([], before, NUL, line, Start);
            && (t.Token? ==> |t.rest| < |line|)
            && Args(line, before, env) == if t.Unmatched? then [] else [Expanded(t, env)] + Args(t.rest, NUL, env)
  {
    ScanGrows([], before, NUL, line, Start);
  }

  /** The last word. */
  lemma {:induction false} WordEnds(w: string, before: char, env: string -> string)
    requires w != []
    ensures Args(Print(w, true), before, env) == [w]
  {
    var line := Print(w, true);
    assert line + [] == line && [] + line == line;
    PrintBegins(w, []);
    var p, f := ScanPrint([], before, NUL, w, true, [], Start);
    ArgsWord(line, before, env);
    ExpandedPrint(w, [], f.quoted, env);
  }

  /** A word with blanks behind it. */
  lemma {:induction false} WordThen(w: string, b: string, tail: string, before: char, env: string -> string)
    requires w != [] && b != [] && Blanks(b)
    ensures Args(Print(w, true) + (b + tail), before, env) == [w] + Args(tail, Last(b[1..], NUL), env)
  {
    var line := Print(w, true) + (b + tail);
    WordCut(w, b, tail, before);
    PrintBegins(w, b + tail);
    ArgsWord(line, before, env);
    ExpandedPrint(w, b[1..] + tail, false, env);
    ArgsBlanks(b[1..], tail, NUL, env);
  }

  lemma {:induction false} WordCut(w: string, b: string, tail: string, before: char)
    requires w != [] && b != [] && Blanks(b)
    ensures Scan([], before, NUL, Print(w, true) + (b + tail), Start) == Token(Print(w, true), b[1..] + tail, false, false)
  {
    assert [] + Print(w, true) == Print(w, true);
    var p, f := ScanPrint([], before, NUL, w, true, b + tail, Start);
    assert b[0] in b && (b + tail)[0] == b[0] && (b + tail)[1..] == b[1..] + tail;
  }

  // ----- whole lines -----

  /** Words, with blanks behind each. */
  function Layout(ws: seq<string>, bs: seq<string>): string
    requires |bs| == |ws|
  {
    if ws == [] then [] else Print(ws[0], true) + (bs[0] + Layout(ws[1..], bs[1..]))
  }

  /** Blanks between each two words, and behind the last if more follows. */
  ghost predicate Spaced(ws: seq<string>, bs: seq<string>, more: bool) {
    && |bs| == |ws|
    && forall i :: 0 <= i < |ws| ==> ws[i] != [] && Blanks(bs[i]) && (more || i + 1 < |ws| ==> bs[i] != [])
  }

  lemma {:induction false} WordsThen(ws: seq<string>, bs: seq<string>, tail: string, before: char, env: string -> string)
    returns (x: char)
    requires Spaced(ws, bs, true)
    ensures Args(Layout(ws, bs) + tail, before, env) == ws + Args(tail, x, env)
    decreases |ws|
  {
    if ws == [] {
      x := before;
      assert [] + tail == tail;
    } else {
      var rest := Layout(ws[1..], bs[1..]);
      Assoc(Print(ws[0], true), bs[0] + rest, tail);
      Assoc(bs[0], rest, tail);
      WordThen(ws[0], bs[0], rest + tail, before, env);
      x := WordsThen(ws[1..], bs[1..], tail, Last(bs[0][1..], NUL), env);
      Assoc([ws[0]], ws[1..], Args(tail, x, env));
      assert [ws[0]] + ws[1..] == ws;
    }
  }

  lemma {:induction false} WordsEnd(ws: seq<string>, bs: seq<string>, before: char, env: string -> string)
    requires Spaced(ws, bs, false)
    ensures Args(Layout(ws, bs), before, env) == ws
    decreases |ws|
  {
    if ws != [] {
      var rest := Layout(ws[1..], bs[1..]);
      if bs[0] == [] {
        assert ws == [ws[0]] && bs[0] + rest == [] && Print(ws[0], true) + [] == Print(ws[0], true);
        WordEnds(ws[0], before, env);
      } else {
        WordThen(ws[0], bs[0], rest, before, env);
        WordsEnd(ws[1..], bs[1..], Last(bs[0][1..], NUL), env);
        assert [ws[0]] + ws[1..] == ws;
      }
    }
  }

  /** Any words that are not empty, with the characters that have a meaning escaped and any blanks in front,
      between and behind, are the words of the line, in every environment. */
  lemma {:induction false} UnquotedWords(b: string, ws: seq<string>, bs: seq<string>, before: char, env: string -> string)
    requires Blanks(b) && Spaced(ws, bs, false)
    ensures Args(b + Layout(ws, bs), before, env) == ws
  {
    ArgsBlanks(b, Layout(ws, bs), before, env);
    WordsEnd(ws, bs, Last(b, before), env);
  }

  /** From a word that begins with # on nothing is a word. */
  lemma {:induction false} CommentEnds(b: string, ws: seq<string>, bs: seq<string>, x: string, before: char,
                                       env: string -> string)
    requires Blanks(b) && Spaced(ws, bs, true)
    ensures Args(b + (Layout(ws, bs) + (['#'] + x)), before, env) == ws
  {
    ArgsBlanks(b, Layout(ws, bs) + (['#'] + x), before, env);
    var y := WordsThen(ws, bs, ['#'] + x, Last(b, before), env);
    assert Args(['#'] + x, y, env) == [] && ws + [] == ws;
  }

  /** < is a word of its own, whatever follows it. */
  lemma {:induction false} InputSign(b: string, ws: seq<string>, bs: seq<string>, x: string, before: char,
                                     env: string -> string)
    requires Blanks(b) && Spaced(ws, bs, true)
    ensures Args(b + (Layout(ws, bs) + (['<'] + x)), before, env) == ws + (["<"] + Args(x, '<', env))
  {
    ArgsBlanks(b, Layout(ws, bs) + (['<'] + x), before, env);
    var y := WordsThen(ws, bs, ['<'] + x, Last(b, before), env);
    assert (['<'] + x)[1..] == x;
  }

  // ----- plain words -----

  /** A word in which nothing has a meaning. */
  ghost predicate IsPlain(w: string) {
    && w != [] && w[0] != '#' && w[0] != '<'
    && forall c <- w :: c != ' ' && c != '\t' && c != '\n' && c != '\'' && c != '"' && c != '`' && c != '\\' && c != '$'
  }

  lemma {:induction false} PrintPlain(w: string, first: bool)
    requires forall c <- w :: !HasMeaning(c)
    requires first ==> w != [] && w[0] != '#' && w[0] != '<'
    ensures Print(w, first) == w
    decreases |w|
  {
    if w != [] {
      assert w[0] in w;
      PrintPlain(w[1..], false);
      assert [w[0]] + w[1..] == w;
    }
  }

  /** Words as they are typed. */
  function Typed(ws: seq<string>, bs: seq<string>): string
    requires |bs| == |ws|
  {
    if ws == [] then [] else ws[0] + (bs[0] + Typed(ws[1..], bs[1..]))
  }

  /** Plain words are typed as they are, and come back as they are. */
  lemma {:induction false} PlainWords(b: string, ws: seq<string>, bs: seq<string>, before: char, env: string -> string)
    requires Blanks(b) && Spaced(ws, bs, false) && forall i :: 0 <= i < |ws| ==> IsPlain(ws[i])
    ensures Args(b + Typed(ws, bs), before, env) == ws
  {
    TypedIs(ws, bs);
    UnquotedWords(b, ws, bs, before, env);
  }

  lemma {:induction false} TypedIs(ws: seq<string>, bs: seq<string>)
    requires |bs| == |ws| && forall i :: 0 <= i < |ws| ==> IsPlain(ws[i])
    ensures Typed(ws, bs) == Layout(ws, bs)
    decreases |ws|
  {
    if ws != [] {
      PrintPlain(ws[0], true);
      TypedIs(ws[1..], bs[1..]);
    }
  }

  // ----- words that are expanded, and words in parts -----

  /** A character that the scan passes outside quotes. */
  predicate Passes(c: char) {
    !IsBlank(c) && c != '\'' && c != '"' && c != '`' && c != '\\'
  }

  lemma {:induction false} ScanPasses(done: string, before: char, prev: char, s: string, rest: string, f: Flags)
    returns (p: char, g: Flags)
    requires Free(prev, f) && forall c <- s :: Passes(c)
    ensures Free(p, g) && g.squote == f.squote
    ensures Scan(done, before, prev, s + rest, f) == Scan(done + s, before, p, rest, g)
    decreases |s|
  {
    if s == [] {
      p, g := prev, f;
      assert [] + rest == rest && done + [] == done;
    } else {
      assert s[0] in s && (s + rest)[1..] == s[1..] + rest;
      assert done + [s[0]] + s[1..] == done + s;
      p, g := ScanPasses(done + [s[0]], before, s[0], s[1..], rest, Flags(false, f.squote, false));
    }
  }

  lemma {:induction false} FindShows(s: string, ch: char)
    requires ch in s && ch != '\\' && '\\' !in s
    ensures Find(s, ch, false) < |s|
  {
    if s[0] != ch {
      FindShows(s[1..], ch);
    }
  }

  /** A word with a dollar sign is what the environment makes of the word as a whole. */
  lemma {:induction false} DollarWord(w: string, before: char, env: string -> string)
    requires '$' in w && w[0] != '#' && w[0] != '<' && forall c <- w :: Passes(c)
    ensures Args(w, before, env) == [env(w)]
  {
    assert w + [] == w && [] + w == w && w[0] in w;
    var p, f := ScanPasses([], before, NUL, w, [], Start);
    ArgsWord(w, before, env);
    FindShows(w, '$');
  }

  /** Text between quotes, with what follows. */
  function Between(q: char, body: string, tail: string): string {
    [q] + (body + ([q] + tail))
  }

  lemma {:induction false} BetweenIs(a: string, body: string, c: string)
    ensures a + ['`'] + body + ['`'] + c == a + Between('`', body, c)
  {
  }

  /** The scan passes quotes in the middle of a word: backquotes stay, the others go. */
  lemma {:induction false} ScanBetween(done: string, before: char, prev: char, q: char, body: string, tail: string, f: Flags)
    requires Free(prev, f) && (q == '\'' || q == '"' || q == '`') && Find(body, q, false) == |body| && !After(body, false)
    ensures var text := if q == '`' then done + [q] + body + [q] else done + body;
            Scan(done, before, prev, Between(q, body, tail), f)
            == Scan(text, before, Last(text, before), tail, Flags(false, f.squote || q == '\'', true))
  {
    var r := body + ([q] + tail);
    FindOver(body, [q] + tail, q, false);
    assert ([q] + r)[1..] == r && r[..|body|] == body && r[|body| + 1..] == tail;
  }

  /** A command between backquotes is no place to cut a word, and stays in it for the environment. */
  lemma {:induction false} BackquoteWord(a: string, body: string, c: string, before: char, env: string -> string)
    requires (a != [] ==> a[0] != '#' && a[0] != '<') && (forall x <- a :: Passes(x)) && (forall x <- c :: Passes(x))
    requires Find(body, '`', false) == |body| && !After(body, false)
    ensures var w := a + Between('`', body, c); Args(w, before, env) == [env(w)]
  {
    var w := a + Between('`', body, c);
    BackquoteScan(a, body, c, before);
    BackquoteBegins(a, Between('`', body, c));
    ArgsWord(w, before, env);
    BackquoteShows(a, body + (['`'] + c));
  }

  lemma {:induction false} BackquoteBegins(a: string, rest: string)
    requires (a != [] ==> a[0] != '#' && a[0] != '<') && (forall x <- a :: Passes(x)) && rest != [] && rest[0] == '`'
    ensures var s := a + rest; s != [] && s[0] != '#' && s[0] != '<' && Skip(s) == s && forall x :: Before(s, x) == x
  {
    if a != [] {
      assert a[0] in a;
    }
  }

  lemma {:induction false} BackquoteScan(a: string, body: string, c: string, before: char)
    requires (forall x <- a :: Passes(x)) && (forall x <- c :: Passes(x))
    requires Find(body, '`', false) == |body| && !After(body, false)
    ensures var w := a + Between('`', body, c);
            var t := Scan([], before, NUL, w, Start);
            t.Token? && t.text == w && t.rest == [] && !t.squote
  {
    var rest := Between('`', body, c);
    assert [] + a == a && c + [] == c;
    var p, f := ScanPasses([], before, NUL, a, rest, Start);
    ScanBetween(a, before, p, '`', body, c, f);
    var text := a + ['`'] + body + ['`'];
    BetweenIs(a, body, c);
    var p', f' := ScanPasses(text, before, Last(text, before), c, [], Flags(false, f.squote, true));
  }

  lemma {:induction false} BackquoteShows(a: string, rest: string)
    requires forall x <- a :: Passes(x)
    ensures var w := a + (['`'] + rest); Find(w, '`', false) < |w|
    decreases |a|
  {
    var w := a + (['`'] + rest);
    if a != [] {
      assert a[0] in a && w[1..] == a[1..] + (['`'] + rest);
      BackquoteShows(a[1..], rest);
    }
  }

  /** Parts of a word that follow each other, the middle one between double quotes, make one word, unless
      the text so far ends in a backslash and more follows. */
  lemma {:induction false} WordInParts(a: string, b: string, c: string, before: char, env: string -> string)
    requires a != [] && (c != [] ==> Last(a + b, NUL) != '\\')
    ensures Args(Print(a, true) + Between('"', Escape(b), Print(c, false)), before, env) == [a + b + c]
  {
    var rest := Between('"', Escape(b), Print(c, false));
    PrintBegins(a, rest);
    PartsScan(a, b, c, before);
    ArgsWord(Print(a, true) + rest, before, env);
    PartsExpand(a, b, c);
  }

  lemma {:induction false} PartsScan(a: string, b: string, c: string, before: char)
    requires a != [] && (c != [] ==> Last(a + b, NUL) != '\\')
    ensures var t := Scan([], before, NUL, Print(a, true) + Between('"', Escape(b), Print(c, false)), Start);
            t.Token? && t.text == Print(a, true) + Escape(b) + Print(c, false) && t.rest == [] && !t.squote
  {
    var x, z := Print(a, true), Print(c, false);
    assert [] + x == x && z + [] == z;
    var p, f := ScanPrint([], before, NUL, a, true, Between('"', Escape(b), z), Start);
    EscapeHides(b, '"');
    ScanBetween(x, before, p, '"', Escape(b), z, f);
    var text := x + Escape(b);
    PrintEnds(a, b);
    if c == [] {
      assert text + z == text;
    } else {
      var p', g := ScanPrint(text, before, Last(text, before), c, false, [], Flags(false, f.squote, true));
    }
  }

  lemma {:induction false} PrintLast(w: string, first: bool)
    requires w != []
    ensures Print(w, first) != [] && Print(w, first)[|Print(w, first)| - 1] == w[|w| - 1]
    decreases |w|
  {
    if |w| > 1 {
      PrintLast(w[1..], false);
    }
  }

  lemma {:induction false} PrintEnds(a: string, b: string)
    requires a != []
    ensures forall x, y :: Last(Print(a, true) + Escape(b), x) == Last(a + b, y)
  {
    PrintLast(a, true);
    EscapeEnds(b);
  }

  /** The parts lose their backslashes, and nothing in them is for the environment. */
  lemma {:induction false} PartsExpand(a: string, b: string, c: string)
    ensures var text := Print(a, true) + Escape(b) + Print(c, false); Plain(text) && Unescape(text) == a + b + c
  {
    var x, y, z := Print(a, true), Escape(b), Print(c, false);
    Assoc(x, y, z);
    UnescapePrint(a, true, y + z);
    UnescapeEscape(b, z);
    UnescapePrint(c, false, []);
    assert z + [] == z && c + [] == c;
    Assoc(a, b, c);
    PartsHide(a, b, c, '`');
    PartsHide(a, b, c, '$');
  }

  lemma {:induction false} PartsHide(a: string, b: string, c: string, ch: char)
    requires ch == '`' || ch == '$'
    ensures var text := Print(a, true) + (Escape(b) + Print(c, false)); Find(text, ch, false) == |text|
  {
    var x, y, z := Print(a, true), Escape(b), Print(c, false);
    PrintHides(a, true, ch);
    EscapeHides(b, ch);
    PrintHides(c, false, ch);
    FindOver(x, y + z, ch, false);
    FindOver(y, z, ch, false);
  }
}
