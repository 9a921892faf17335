/**
 NSH variables: name=value strings one after the other in a single byte buffer, which behaves as a
 map from names to values as long as no name holds a '='.
 */
module NshVars {
  import opened Basics

  /** A stored string, split at its first '='. */
  datatype Entry = Entry(name: string, value: string)

  /** What C strings allow, and a name without '='. */
  predicate Clean(e: Entry) {
    NUL !in e.name && '=' !in e.name && NUL !in e.value
  }

  ghost predicate AllClean(es: seq<Entry>) {
    forall i :: 0 <= i < |es| ==> Clean(es[i])
  }

  predicate Has(es: seq<Entry>, name: string) {
    es != [] && (es[0].name == name || Has(es[1..], name))
  }

  predicate Distinct(es: seq<Entry>) {
    es != [] ==> !Has(es[1..], es[0].name) && Distinct(es[1..])
  }

  /** The string of an entry, without its terminator. */
  function Pair(e: Entry): string {
    e.name + "=" + e.value
  }

  function Encode(es: seq<Entry>): string {
    if es == [] then "" else Pair(es[0]) + [NUL] + Encode(es[1..])
  }

  /** How far the first c is. */
  function Upto(s: string, c: char): (k: nat)
    ensures k <= |s| && c !in s[..k] && (k < |s| ==> s[k] == c)
  {
    if s == "" || s[0] == c then 0 else
      var k := 1 + Upto(s[1..], c);
      assert s[..k] == [s[0]] + s[1..][..k - 1];
      k
  }

  // ----- operations, for any name -----

  /** nsh_cmpname: the name, followed by '=', begins the string. */
  predicate Matches(e: Entry, name: string) {
    name + "=" <= Pair(e)
  }

  /** The index of the first entry that matches the name, or the number of entries. */
  function IndexOf(es: seq<Entry>, name: string): (k: nat)
    ensures k <= |es| && (k < |es| ==> Matches(es[k], name))
    ensures forall i :: 0 <= i < k ==> !Matches(es[i], name)
  {
    if es == [] || Matches(es[0], name) then 0 else 1 + IndexOf(es[1..], name)
  }

  /** The entries without the first one that matches the name. */
  function Without(es: seq<Entry>, name: string): seq<Entry> {
    if es == [] then [] else if Matches(es[0], name) then es[1..] else [es[0]] + Without(es[1..], name)
  }

  /** nsh_getvar: what follows the first '=' in the first string that matches. */
  function Got(es: seq<Entry>, name: string): Option<string> {
    var k := IndexOf(es, name);
    if k < |es| then Some(es[k].value) else None
  }

  /** The string name=value as the entry that it reads as. */
  function Made(name: string, value: string): (e: Entry)
    ensures Pair(e) == name + "=" + value && '=' !in e.name
    ensures '=' !in name ==> e == Entry(name, value)
    ensures NUL !in name && NUL !in value ==> Clean(e)
  {
    var p := Upto(name, '=');
    if p == |name| then
      assert name[..p] == name;
      Entry(name, value)
    else
      assert name == name[..p] + "=" + name[p + 1..];
      Entry(name[..p], name[p + 1..] + "=" + value)
  }

  function SetTo(es: seq<Entry>, name: string, value: string): seq<Entry> {
    Without(es, name) + [Made(name, value)]
  }

  function AsMap(es: seq<Entry>): map<string, string> {
    if es == [] then map[] else AsMap(es[1..])[es[0].name := es[0].value]
  }

  // ----- where the comparison stops -----

  /** The comparison of a name with a string looks at both with their terminators, up to the first
      difference. It stays inside them if and only if they differ, since nothing else stops it. */
  lemma {:induction false} StopsExact(name: string, s: string)
    requires NUL !in name && NUL !in s
    ensures (exists i :: Differs(name, s, i)) <==> name != s
  {
    if name != s && |name| == |s| {
      var i :| 0 <= i < |s| && name[i] != s[i];
      assert Differs(name, s, i);
    } else if |name| < |s| {
      assert s[|name|] in s;
      assert Differs(name, s, |name|);
    } else if |name| > |s| {
      assert name[|s|] in name;
      assert Differs(name, s, |s|);
    }
  }

  predicate Differs(name: string, s: string, i: int) {
    0 <= i <= |name| && i <= |s| && (name + [NUL])[i] != (s + [NUL])[i]
  }

  /** The search for a name compares it with no string equal to it, so that every comparison stops. */
  ghost predicate Stays(es: seq<Entry>, name: string) {
    forall k :: 0 <= k < IndexOf(es, name) ==> Pair(es[k]) != name
  }

  /** A name without '=' is no stored string, so that the search for it stays inside the strings. */
  lemma {:induction false} StaysPlain(es: seq<Entry>, name: string)
    requires '=' !in name
    ensures Stays(es, name)
  {
    forall k | 0 <= k < |es| ensures Pair(es[k]) != name {
      assert Pair(es[k])[|es[k].name|] == '=';
    }
  }

  // ----- without '=' the entries are a map -----

  lemma {:induction false} UptoIs(s: string, c: char, k: nat)
    requires k < |s| && s[k] == c && c !in s[..k]
    ensures Upto(s, c) == k
  {
  }

  /** A name without '=' matches exactly the entries of that name. */
  lemma {:induction false} MatchesName(e: Entry, name: string)
    requires '=' !in e.name && '=' !in name
    ensures Matches(e, name) <==> e.name == name
  {
    var s := Pair(e);
    assert s[..|e.name|] == e.name && s[|e.name|] == '=';
    UptoIs(s, '=', |e.name|);
    if Matches(e, name) {
      assert s[..|name|] == (name + "=")[..|name|] == name && s[|name|] == (name + "=")[|name|];
      UptoIs(s, '=', |name|);
    }
  }

  lemma {:induction false} IndexIsName(es: seq<Entry>, name: string)
    requires AllClean(es) && '=' !in name
    ensures Has(es, name) <==> IndexOf(es, name) < |es|
    ensures IndexOf(es, name) < |es| ==> es[IndexOf(es, name)].name == name
  {
    if es != [] {
      assert Clean(es[0]);
      MatchesName(es[0], name);
      IndexIsName(es[1..], name);
    }
  }

  /** Looking up an entry is looking up the map. */
  lemma {:induction false} LookupIsMap(es: seq<Entry>, name: string)
    requires AllClean(es) && '=' !in name
    ensures Has(es, name) <==> name in AsMap(es)
    ensures Got(es, name) == if name in AsMap(es) then Some(AsMap(es)[name]) else None
  {
    if es != [] {
      assert Clean(es[0]);
      MatchesName(es[0], name);
      LookupIsMap(es[1..], name);
    }
  }

  lemma {:induction false} HasIsMap(es: seq<Entry>, name: string)
    ensures Has(es, name) <==> name in AsMap(es)
  {
    if es != [] {
      HasIsMap(es[1..], name);
    }
  }

  /** Removing an entry removes its name from the map, and nothing else. */
  lemma {:induction false} WithoutRemoves(es: seq<Entry>, name: string)
    requires AllClean(es) && Distinct(es) && '=' !in name
    ensures AsMap(Without(es, name)) == AsMap(es) - {name}
    ensures Distinct(Without(es, name)) && !Has(Without(es, name), name)
  {
    if es != [] {
      var rest := es[1..];
      assert Clean(es[0]);
      MatchesName(es[0], name);
      if es[0].name == name {
        HasIsMap(rest, name);
      } else {
        WithoutRemoves(rest, name);
        var ws := Without(rest, name);
        assert ([es[0]] + ws)[1..] == ws;
        HasIsMap(ws, es[0].name);
        HasIsMap(rest, es[0].name);
      }
    }
  }

  /** Appending an entry of a new name adds it to the map, and changes nothing else. */
  lemma {:induction false} AppendAdds(es: seq<Entry>, e: Entry)
    requires Distinct(es) && !Has(es, e.name)
    ensures Distinct(es + [e]) && AsMap(es + [e]) == AsMap(es)[e.name := e.value]
    ensures forall n :: Has(es + [e], n) ==> n == e.name || Has(es, n)
  {
    if es != [] {
      assert (es + [e])[1..] == es[1..] + [e];
      AppendAdds(es[1..], e);
    } else {
      assert [e][1..] == [];
    }
  }

  lemma {:induction false} WithoutCut(es: seq<Entry>, name: string)
    ensures var k := IndexOf(es, name);
            Without(es, name) == if k == |es| then es else es[..k] + es[k + 1..]
  {
    if es != [] && !Matches(es[0], name) {
      WithoutCut(es[1..], name);
      var k := IndexOf(es[1..], name);
      if k < |es| - 1 {
        CutFront(es, k);
      }
    }
  }

  lemma {:induction false} CutFront(es: seq<Entry>, k: nat)
    requires k + 1 < |es|
    ensures [es[0]] + (es[1..][..k] + es[1..][k + 1..]) == es[..k + 1] + es[k + 2..]
  {
  }

  // ----- the entries are in the bytes -----

  lemma {:induction false} EncodeCat(es: seq<Entry>, fs: seq<Entry>)
    ensures Encode(es + fs) == Encode(es) + Encode(fs)
  {
    if es == [] {
      assert es + fs == fs;
    } else {
      assert (es + fs)[1..] == es[1..] + fs;
      EncodeCat(es[1..], fs);
    }
  }

  /** Where entry k stands in the bytes. */
  function Offset(es: seq<Entry>, k: nat): nat
    requires k <= |es|
  {
    if k == 0 then 0 else |Pair(es[0])| + 1 + Offset(es[1..], k - 1)
  }

  lemma {:induction false} OffsetNext(es: seq<Entry>, k: nat)
    requires k < |es|
    ensures Offset(es, k + 1) == Offset(es, k) + |Pair(es[k])| + 1
  {
    if k > 0 {
      OffsetNext(es[1..], k - 1);
    }
  }

  /** The bytes from an offset on are those of the entries from there on. */
  lemma {:induction false} EncodeFrom(es: seq<Entry>, k: nat)
    requires k <= |es|
    ensures Offset(es, k) <= |Encode(es)| && Encode(es)[Offset(es, k)..] == Encode(es[k..])
  {
    if k == 0 {
      assert es[0..] == es;
    } else {
      EncodeFrom(es[1..], k - 1);
      assert es[1..][k - 1..] == es[k..];
    }
  }

  /** The bytes up to an offset are those of the entries up to there. */
  lemma {:induction false} EncodeTo(es: seq<Entry>, k: nat)
    requires k <= |es|
    ensures Offset(es, k) <= |Encode(es)| && Encode(es)[..Offset(es, k)] == Encode(es[..k])
  {
    if k > 0 {
      EncodeTo(es[1..], k - 1);
      assert es[..k][1..] == es[1..][..k - 1];
      var h, t, o := Pair(es[0]) + [NUL], Encode(es[1..]), Offset(es[1..], k - 1);
      assert (h + t)[..|h| + o] == h + t[..o];
    }
  }

  /** The bytes determine the entries. */
  function Decode(s: string): seq<Entry>
    decreases |s|
  {
    if s == "" then []
    else
      var n, p := Upto(s, NUL), Upto(s, '=');
      var e := if p < n then Entry(s[..p], s[p + 1..n]) else Entry(s[..n], "");
      if n < |s| then [e] + Decode(s[n + 1..]) else [e]
  }

  lemma {:induction false} DecodeEncode(es: seq<Entry>)
    requires AllClean(es)
    ensures Decode(Encode(es)) == es
  {
    if es != [] {
      var e, s := es[0], Encode(es);
      var n, p := |Pair(e)|, |e.name|;
      assert s[..n] == Pair(e) && s[n] == NUL && s[..p] == e.name && s[p] == '=';
      UptoIs(s, NUL, n);
      UptoIs(s, '=', p);
      assert s[p + 1..n] == e.value && s[n + 1..] == Encode(es[1..]);
      DecodeEncode(es[1..]);
    }
  }

  // ----- what is set comes back -----

  lemma {:induction false} IndexCat(es: seq<Entry>, e: Entry, name: string)
    ensures IndexOf(es + [e], name)
         == if IndexOf(es, name) < |es| then IndexOf(es, name) else if Matches(e, name) then |es| else |es| + 1
  {
    if es == [] {
      assert es + [e] == [e] && [e][1..] == [];
    } else {
      assert (es + [e])[1..] == es[1..] + [e];
      IndexCat(es[1..], e, name);
    }
  }

  /** In any store whatsoever: a value that is set comes back if and only if no other string begins with
      name= and the name has no '=', or the first such string happens to hold the value. */
  lemma {:induction false} SetGetExact(es: seq<Entry>, name: string, value: string)
    ensures var rest := Without(es, name);
            var k := IndexOf(rest, name);
            Got(SetTo(es, name, value), name) == Some(value)
            <==> if k < |rest| then rest[k].value == value else '=' !in name
  {
    var rest, e := Without(es, name), Made(name, value);
    IndexCat(rest, e, name);
    if IndexOf(rest, name) == |rest| {
      assert Matches(e, name);
      assert |e.name| + |e.value| == |name| + |value|;
      if '=' in name {
        assert e.name != name && |e.name| <= |name|;
      }
    }
  }

  /** The strings that match a name read as entries of one name, so that among entries of different
      names there is at most one. */
  lemma {:induction false} OneMatch(es: seq<Entry>, name: string)
    requires AllClean(es) && Distinct(es)
    ensures var rest := Without(es, name); IndexOf(rest, name) == |rest|
  {
    if es != [] {
      var rest := es[1..];
      if Matches(es[0], name) {
        forall i | 0 <= i < |rest| ensures !Matches(rest[i], name) {
          assert Clean(es[0]) && Clean(rest[i]);
          if Matches(rest[i], name) {
            SameName(es[0], rest[i], name);
            HasAt(rest, i);
          }
        }
      } else {
        OneMatch(rest, name);
        assert ([es[0]] + Without(rest, name))[1..] == Without(rest, name);
      }
    }
  }

  lemma {:induction false} HasAt(es: seq<Entry>, i: nat)
    requires i < |es|
    ensures Has(es, es[i].name)
  {
    if i > 0 {
      HasAt(es[1..], i - 1);
    }
  }

  lemma {:induction false} SameName(e: Entry, f: Entry, name: string)
    requires Clean(e) && Clean(f) && Matches(e, name) && Matches(f, name)
    ensures e.name == f.name
  {
    NameOf(e, name);
    NameOf(f, name);
  }

  /** The name of an entry is what a string that it matches holds before its first '='. */
  lemma {:induction false} NameOf(e: Entry, name: string)
    requires '=' !in e.name && Matches(e, name)
    ensures var p := Upto(name + "=", '='); p <= |name| && e.name == name[..p]
  {
    var s, t := Pair(e), name + "=";
    var p := Upto(t, '=');
    assert t[|name|] == '=';
    assert p <= |name|;
    assert s[..|e.name|] == e.name && s[|e.name|] == '=';
    UptoIs(s, '=', |e.name|);
    assert s[..p] == t[..p] && s[p] == t[p];
    UptoIs(s, '=', p);
  }

  /** Among variables of different names, a variable that is set comes back if and only if its name has
      no '='. */
  lemma {:induction false} ComesBackExact(es: seq<Entry>, name: string, value: string)
    requires AllClean(es) && Distinct(es)
    ensures Got(SetTo(es, name, value), name) == Some(value) <==> '=' !in name
  {
    OneMatch(es, name);
    SetGetExact(es, name, value);
  }

  /** A name with '=' can hide a variable without: a is 1, then a=b is c, then a is 2, and a gives b=c. */
  lemma {:induction false} Hidden()
    ensures var es := SetTo(SetTo([Entry("a", "1")], "a=b", "c"), "a", "2");
            Got(es, "a") == Some("b=c")
  {
    var e, f := Entry("a", "1"), Entry("a", "b=c");
    assert Pair(e) == "a=1" && Pair(f) == "a=b=c";
    assert !Matches(e, "a=b") by {
      assert |"a=b" + "="| == 4;
    }
    assert Matches(e, "a") by {
      assert "a" + "=" == "a=1"[..2];
    }
    assert Matches(f, "a") by {
      assert "a" + "=" == "a=b=c"[..2];
    }
    assert Upto("a=b", '=') == 1 by {
      UptoIs("a=b", '=', 1);
    }
    assert Made("a=b", "c") == f by {
      assert "a=b"[..1] == "a" && "a=b"[2..] == "b" && "b" + "=" + "c" == "b=c";
    }
    var one := [e, f];
    assert SetTo([e], "a=b", "c") == one by {
      assert Without([e], "a=b") == [e];
    }
    assert Without(one, "a") == one[1..] == [f];
    assert SetTo(one, "a", "2")[0] == f;
  }
}
