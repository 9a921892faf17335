/** The variable buffer as the console keeps it: bytes searched, shifted and appended to in place. */
module NshVarStore {
  import opened Basics
  import opened NshVars

  /** The character of a C string at the index, its terminator included. */
  function CharAt(s: string, i: nat): char
    requires i <= |s|
  {
    if i < |s| then s[i] else NUL
  }

  /** nsh_cmpname on a name and the string s at p, which is not the name itself. */
  method CmpAt(buf: array<char>, p: nat, name: string, ghost s: string) returns (same: bool)
    requires p + |s| < buf.Length && buf[p..p + |s|] == s && buf[p + |s|] == NUL
    requires NUL !in name && NUL !in s && s != name
    ensures same <==> name + "=" <= s
  {
    var i := 0;
    while CharAt(name, i) == buf[p + i]
      invariant i <= |name| && i <= |s| && name[..i] == s[..i]
      decreases |name| - i
    {
      CmpNext(buf[p..p + |s| + 1], name, s, i);
      i := i + 1;
    }
    CmpStops(buf[p..p + |s| + 1], name, s, i);
    same := CharAt(name, i) == NUL && buf[p + i] == '=';
  }

  /** While the comparison goes on, it is inside both strings. */
  lemma {:induction false} CmpNext(t: string, name: string, s: string, i: nat)
    requires t == s + [NUL] && NUL !in name && NUL !in s && s != name
    requires i <= |name| && i <= |s| && name[..i] == s[..i] && CharAt(name, i) == t[i]
    ensures i < |name| && i < |s| && name[..i + 1] == s[..i + 1]
  {
    if i == |name| || i == |s| {
      assert false;
    }
    assert name[..i + 1] == name[..i] + [name[i]] && s[..i + 1] == s[..i] + [s[i]];
  }

  lemma {:induction false} CmpStops(t: string, name: string, s: string, i: nat)
    requires t == s + [NUL] && NUL !in name && NUL !in s
    requires i <= |name| && i <= |s| && name[..i] == s[..i] && CharAt(name, i) != t[i]
    ensures CharAt(name, i) == NUL && t[i] == '=' <==> name + "=" <= s
  {
    if CharAt(name, i) == NUL {
      assert name[..i] == name;
    }
    if name + "=" <= s {
      assert s[..|name|] == name && s[|name|] == '=';
    } else if CharAt(name, i) == NUL && t[i] == '=' {
      assert false;
    }
  }

  /** strlen and strchr: how far the first c is from p, when the string s without c lies before it. */
  method Find(buf: array<char>, p: nat, c: char, ghost s: string) returns (n: nat)
    requires p + |s| < buf.Length && buf[p..p + |s|] == s && buf[p + |s|] == c && c !in s
    ensures n == |s|
  {
    n := 0;
    while buf[p + n] != c
      invariant n <= |s|
      invariant n < |s| ==> buf[p + n] in s
      decreases |s| - n
    {
      n := n + 1;
      assert n < |s| ==> buf[p + n] == s[n];
    }
  }

  /** The string from p up to its terminator. */
  method CopyString(buf: array<char>, p: nat, ghost s: string) returns (r: string)
    requires p + |s| < buf.Length && buf[p..p + |s|] == s && buf[p + |s|] == NUL && NUL !in s
    ensures r == s
  {
    var n := Find(buf, p, NUL, s);
    r := buf[p..p + n];
  }

  class VarStore {
    var varp: array?<char>
    var varsz: nat
    ghost var entries: seq<Entry>

    ghost function Bytes(): string
      requires varp == null || varsz <= varp.Length
      reads this, varp
    {
      if varp == null then "" else varp[..varsz]
    }

    ghost predicate Valid()
      reads this, varp
    {
      && (if varp == null then varsz == 0 else varsz <= varp.Length)
      && Bytes() == Encode(entries)
      && AllClean(entries)
    }

    constructor ()
      ensures Valid() && entries == [] && varp == null
    {
      varp, varsz, entries := null, 0, [];
    }

    /** nsh_cmpname: does the string at p match the name? */
    method CmpName(name: string, p: nat, ghost k: nat) returns (same: bool)
      requires Valid() && k < |entries| && p == Offset(entries, k) && NUL !in name && Pair(entries[k]) != name
      ensures same <==> Matches(entries[k], name)
    {
      PairIn(varp, varsz, entries, k);
      same := CmpAt(varp, p, name, Pair(entries[k]));
    }

    /** strlen of the string at p. */
    method StrLen(p: nat, ghost k: nat) returns (n: nat)
      requires Valid() && k < |entries| && p == Offset(entries, k)
      ensures n == |Pair(entries[k])|
    {
      PairIn(varp, varsz, entries, k);
      n := Find(varp, p, NUL, Pair(entries[k]));
    }

    /** nsh_findvar: the offset of the first string that matches, or the end of the buffer. */
    method FindVar(name: string) returns (p: nat, found: bool)
      requires Valid() && NUL !in name && Stays(entries, name)
      ensures found <==> IndexOf(entries, name) < |entries|
      ensures p == Offset(entries, IndexOf(entries, name))
    {
      p := 0;
      ghost var k := 0;
      EncodeAll(entries);
      while p < varsz
        invariant k <= IndexOf(entries, name) && p == Offset(entries, k) <= varsz
        decreases |entries| - k
      {
        assert k < |entries|;
        MatchIsOther(entries, name, k);
        var m := CmpName(name, p, k);
        if m {
          assert IndexOf(entries, name) == k;
          return p, true;
        }
        var n := StrLen(p, k);
        NextIn(entries, k);
        p := p + n + 1;
        k := k + 1;
      }
      found := false;
    }

    /** nsh_removevar: shifts the strings behind the one at p down over it. */
    method RemoveVar(p: nat, ghost k: nat)
      requires Valid() && k < |entries| && p == Offset(entries, k)
      modifies this`varsz, this`entries, varp
      ensures Valid() && entries == old(entries)[..k] + old(entries)[k + 1..] && varp == old(varp)
    {
      var n := StrLen(p, k);
      CutIn(varp, varsz, entries, k);
      ShiftDown(varp, p, n + 1, varsz);
      varsz := varsz - (n + 1);
      entries := entries[..k] + entries[k + 1..];
    }

    /** Removes the first string that matches, if there is one. */
    method Drop(name: string) returns (found: bool)
      requires Valid() && NUL !in name && Stays(entries, name)
      modifies this`varsz, this`entries, varp
      ensures Valid() && entries == Without(old(entries), name)
      ensures found == (IndexOf(old(entries), name) < |old(entries)|) && varp == old(varp)
    {
      WithoutCut(entries, name);
      var p;
      p, found := FindVar(name);
      if found {
        RemoveVar(p, IndexOf(entries, name));
      }
    }

    /** Puts a new string at the end of a buffer that is larger by its size. */
    method Append(name: string, value: string)
      requires Valid() && NUL !in name && NUL !in value
      modifies this
      ensures Valid() && entries == old(entries) + [Made(name, value)] && fresh(varp)
    {
      var pair := name + "=" + value + [NUL];
      ghost var e := Made(name, value);
      EncodeCat(entries, [e]);
      assert Encode([e]) == pair + "";
      var newvarp := Grown(varp, varsz, pair);
      varp, varsz := newvarp, varsz + |pair|;
      entries := entries + [e];
      assert varp[..varsz] == varp[..];
    }

    /** The value in the string at p: what follows its first '='. */
    method ValueAt(p: nat, ghost k: nat) returns (v: string)
      requires Valid() && k < |entries| && p == Offset(entries, k)
      ensures v == entries[k].value
    {
      NameIn(varp, varsz, entries, k);
      var n := Find(varp, p, '=', entries[k].name);
      ValueIn(varp, varsz, entries, k);
      v := CopyString(varp, p + n + 1, entries[k].value);
    }

    /** nsh_getvar: the value of the variable. */
    method GetVar(name: string) returns (r: Option<string>)
      requires Valid() && NUL !in name && Stays(entries, name)
      ensures r == Got(entries, name)
      ensures '=' !in name ==> r == if name in AsMap(entries) then Some(AsMap(entries)[name]) else None
    {
      if '=' !in name {
        LookupIsMap(entries, name);
      }
      var p, found := FindVar(name);
      if !found {
        return None;
      }
      var v := ValueAt(p, IndexOf(entries, name));
      r := Some(v);
    }

    /** nsh_setvar; the flag says whether the allocation succeeds. */
    method SetVar(name: string, value: string, alloc: bool) returns (ok: bool)
      requires Valid() && NUL !in name && NUL !in value && Stays(entries, name)
      modifies this, varp
      ensures Valid() && ok == alloc && (varp != old(varp) ==> fresh(varp))
      ensures entries == if ok then SetTo(old(entries), name, value) else Without(old(entries), name)
      ensures '=' !in name && Distinct(old(entries)) ==>
                && Distinct(entries)
                && AsMap(entries) == if ok then old(AsMap(entries))[name := value] else old(AsMap(entries)) - {name}
    {
      ghost var es := entries;
      var _ := Drop(name);
      if alloc {
        Append(name, value);
      }
      ok := alloc;
      if '=' !in name && Distinct(es) {
        SetIsMap(es, name, value);
      }
    }

    /** nsh_unsetvar; the flag says whether the shrinking reallocation succeeds. */
    method UnsetVar(name: string, alloc: bool) returns (ok: bool)
      requires Valid() && NUL !in name && Stays(entries, name)
      modifies this, varp
      ensures Valid() && (varp != null && varp != old(varp) ==> fresh(varp))
      ensures entries == Without(old(entries), name)
      ensures '=' !in name && Distinct(old(entries)) ==>
                Distinct(entries) && AsMap(entries) == old(AsMap(entries)) - {name}
      ensures ok <==> alloc || IndexOf(old(entries), name) == |old(entries)| || entries == []
    {
      ghost var es := entries;
      ok := true;
      var found := Drop(name);
      if found {
        EmptyBytes(entries);
        if varsz <= 0 {
          varp, varsz := null, 0;
        } else if !alloc {
          ok := false;
        } else {
          varp := Grown(varp, varsz, "");
        }
      }
      if '=' !in name && Distinct(es) {
        WithoutRemoves(es, name);
      }
    }

    /** nsh_foreach_var: calls back with each string in turn, until one returns non-zero. */
    method ForeachVar(cb: string -> int) returns (ret: int, visited: seq<string>)
      requires Valid()
      ensures |visited| <= |entries| && forall i :: 0 <= i < |visited| ==> visited[i] == Pair(entries[i])
      ensures forall i :: 0 <= i < |visited| - 1 ==> cb(visited[i]) == 0
      ensures ret == if visited == [] then 0 else cb(visited[|visited| - 1])
      ensures ret == 0 ==> |visited| == |entries|
    {
      ret, visited := 0, [];
      var p := 0;
      EncodeAll(entries);
      while p < varsz
        invariant |visited| <= |entries| && p == Offset(entries, |visited|) <= varsz
        invariant forall i :: 0 <= i < |visited| ==> visited[i] == Pair(entries[i]) && cb(visited[i]) == 0
        invariant ret == 0
        decreases |entries| - |visited|
      {
        ghost var k := |visited|;
        PairIn(varp, varsz, entries, k);
        NextIn(entries, k);
        var s := CopyString(varp, p, Pair(entries[k]));
        visited := visited + [s];
        ret := cb(s);
        if ret != 0 {
          return;
        }
        p := p + |s| + 1;
      }
    }
  }

  /** Moves the bytes from p + len up to end down to p. */
  method ShiftDown(buf: array<char>, p: nat, len: nat, end: nat)
    requires p + len <= end <= buf.Length
    modifies buf
    ensures buf[..end - len] == old(buf[..p] + buf[p + len..end])
  {
    var dest, src := p, p + len;
    while src < end
      invariant p <= dest && src == dest + len <= end
      invariant buf[..dest] == old(buf[..p] + buf[p + len..src])
      invariant buf[src..end] == old(buf[src..end])
    {
      assert buf[src] == buf[src..end][0] == old(buf[src..end])[0];
      buf[dest] := buf[src];
      dest, src := dest + 1, src + 1;
      assert buf[src..end] == old(buf[src..end]);
      assert buf[..dest] == buf[..dest - 1] + [buf[dest - 1]];
    }
  }

  /** realloc and snprintf: a buffer with the first n bytes of the old one and the string. */
  method Grown(buf: array?<char>, n: nat, s: string) returns (r: array<char>)
    requires if buf == null then n == 0 else n <= buf.Length
    ensures fresh(r) && r[..] == (if buf == null then "" else buf[..n]) + s
  {
    var front := if buf == null then "" else buf[..n];
    r := new char[n + |s|](i requires 0 <= i < n + |s| => (front + s)[i]);
  }

  /** Setting a variable among variables of different names is a map update. */
  lemma {:induction false} SetIsMap(es: seq<Entry>, name: string, value: string)
    requires AllClean(es) && Distinct(es) && '=' !in name
    ensures Distinct(Without(es, name)) && AsMap(Without(es, name)) == AsMap(es) - {name}
    ensures Distinct(SetTo(es, name, value)) && AsMap(SetTo(es, name, value)) == AsMap(es)[name := value]
  {
    WithoutRemoves(es, name);
    AppendAdds(Without(es, name), Entry(name, value));
    assert (AsMap(es) - {name})[name := value] == AsMap(es)[name := value];
  }

  /** A string that matches a name is longer, so it is not the name. */
  lemma {:induction false} MatchIsOther(es: seq<Entry>, name: string, k: nat)
    requires k <= IndexOf(es, name) && k < |es| && Stays(es, name)
    ensures Pair(es[k]) != name
  {
    if k == IndexOf(es, name) {
      assert |name + "="| == |name| + 1;
    }
  }

  /** Where the buffer holds the string, the name and the value of an entry. */
  lemma {:induction false} PairIn(buf: array<char>, n: nat, es: seq<Entry>, k: nat)
    requires n <= buf.Length && buf[..n] == Encode(es) && k < |es| && AllClean(es)
    ensures var p, s := Offset(es, k), Pair(es[k]);
            p + |s| < n && buf[p..p + |s|] == s && buf[p + |s|] == NUL && NUL !in s
  {
    PairSlice(es, k);
    var p, s := Offset(es, k), Pair(es[k]);
    assert buf[p..p + |s|] == buf[..n][p..p + |s|];
    assert buf[p + |s|] == buf[..n][p + |s|];
  }

  lemma {:induction false} PairSlice(es: seq<Entry>, k: nat)
    requires k < |es| && AllClean(es)
    ensures var p, s := Offset(es, k), Pair(es[k]);
            p + |s| < |Encode(es)| && Encode(es)[p..p + |s|] == s && Encode(es)[p + |s|] == NUL && NUL !in s
  {
    EncodeFrom(es, k);
    var p, s, t := Offset(es, k), Pair(es[k]), Encode(es)[Offset(es, k)..];
    assert t[..|s|] == s && t[|s|] == NUL;
    assert Encode(es)[p..p + |s|] == t[..|s|];
  }

  lemma {:induction false} NameIn(buf: array<char>, n: nat, es: seq<Entry>, k: nat)
    requires n <= buf.Length && buf[..n] == Encode(es) && k < |es| && AllClean(es)
    ensures var p, s := Offset(es, k), es[k].name;
            p + |s| < n && buf[p..p + |s|] == s && buf[p + |s|] == '=' && NUL !in s && '=' !in s
  {
    PairIn(buf, n, es, k);
    var p, e := Offset(es, k), es[k];
    var s := buf[p..p + |Pair(e)|];
    assert s == Pair(e);
    assert s[..|e.name|] == e.name && s[|e.name|] == '=';
    assert buf[p..p + |e.name|] == s[..|e.name|];
  }

  lemma {:induction false} ValueIn(buf: array<char>, n: nat, es: seq<Entry>, k: nat)
    requires n <= buf.Length && buf[..n] == Encode(es) && k < |es| && AllClean(es)
    ensures var q, s := Offset(es, k) + |es[k].name| + 1, es[k].value;
            q + |s| < n && buf[q..q + |s|] == s && buf[q + |s|] == NUL && NUL !in s
  {
    PairIn(buf, n, es, k);
    var p, e := Offset(es, k), es[k];
    var s := buf[p..p + |Pair(e)|];
    assert s == Pair(e);
    assert s[|e.name| + 1..] == e.value;
    assert buf[p + |e.name| + 1..p + |Pair(e)|] == s[|e.name| + 1..];
  }

  lemma {:induction false} NextIn(es: seq<Entry>, k: nat)
    requires k < |es|
    ensures Offset(es, k + 1) == Offset(es, k) + |Pair(es[k])| + 1 <= |Encode(es)|
  {
    OffsetNext(es, k);
    EncodeFrom(es, k + 1);
  }

  lemma {:induction false} CutIn(buf: array<char>, n: nat, es: seq<Entry>, k: nat)
    requires n <= buf.Length && buf[..n] == Encode(es) && k < |es|
    ensures var p, m := Offset(es, k), |Pair(es[k])| + 1;
            p + m <= n && buf[..p] + buf[p + m..n] == Encode(es[..k] + es[k + 1..])
  {
    EncodeCut(es, k);
    var p, m := Offset(es, k), |Pair(es[k])| + 1;
    assert buf[..p] == buf[..n][..p] && buf[p + m..n] == buf[..n][p + m..];
  }

  lemma {:induction false} EncodeCut(es: seq<Entry>, k: nat)
    requires k < |es|
    ensures var p, n, s := Offset(es, k), |Pair(es[k])| + 1, Encode(es);
            p + n <= |s| && s[..p] + s[p + n..] == Encode(es[..k] + es[k + 1..])
  {
    NextIn(es, k);
    EncodeTo(es, k);
    EncodeFrom(es, k + 1);
    CatIs(es[..k], es[k + 1..], Encode(es)[..Offset(es, k)], Encode(es)[Offset(es, k + 1)..]);
  }

  lemma {:induction false} CatIs(a: seq<Entry>, b: seq<Entry>, x: string, y: string)
    requires x == Encode(a) && y == Encode(b)
    ensures x + y == Encode(a + b)
  {
    EncodeCat(a, b);
  }

  lemma {:induction false} EmptyBytes(es: seq<Entry>)
    ensures |Encode(es)| == 0 <==> es == []
  {
  }

  lemma {:induction false} EncodeAll(es: seq<Entry>)
    ensures Offset(es, 0) == 0 && Offset(es, |es|) == |Encode(es)|
    ensures forall k :: 0 <= k < |es| ==> Offset(es, k) < |Encode(es)|
  {
    EncodeFrom(es, |es|);
    assert es[|es|..] == [];
    forall k | 0 <= k < |es| ensures Offset(es, k) < |Encode(es)| {
      NextIn(es, k);
    }
  }
}