/**
 What each operation on aliases does to the alias it names and to the others, told by names alone.
 */
module NshAliasSteps {
  import opened Basics
  import opened NshAlias

  /** Entry i is the alias of the name. */
  ghost predicate Is(p: Pool, name: string, i: nat) {
    i in p.used && i < |p.tab| && p.tab[i].name == Some(name)
  }

  ghost predicate Unknown(p: Pool, name: string) {
    forall i: nat :: !Is(p, name, i)
  }

  /** There is at most one, and the search finds it. */
  lemma {:induction false} FindIs(p: Pool, name: string)
    requires Inv(p)
    ensures forall i: nat :: Is(p, name, i) ==> Find(p.tab, p.used, name) == Some(i)
    ensures Find(p.tab, p.used, name).None? ==> Unknown(p, name)
    ensures Unknown(p, name) ==> Find(p.tab, p.used, name).None?
  {
    var f := Find(p.tab, p.used, name);
    forall i: nat | Is(p, name, i) ensures f == Some(i) {
    }
    if f.Some? {
      assert Is(p, name, f.value);
    }
  }

  // ----- expansion -----

  /** An alias that can be expanded: it has a value and is not being expanded already. */
  ghost predicate Ready(p: Pool, token: string, i: nat) {
    Is(p, token, i) && p.tab[i].value.Some? && !p.tab[i].exp
  }

  /** A token that names an alias which can be expanded is expanded: the alias is marked and taken into the list,
      and nothing else changes. Any other token changes nothing. */
  lemma {:induction false} ExpandExact(p: Pool, j: nat, token: string)
    requires Inv(p) && j < |p.lists|
    ensures forall i: nat :: Ready(p, token, i) ==>
              Expand(p, j, token) == p.(tab := p.tab[i := p.tab[i].(exp := true)], lists := p.lists[j := p.lists[j] + [i]])
    ensures (forall i: nat :: !Ready(p, token, i)) ==> Expand(p, j, token) == p
  {
    FindIs(p, token);
    forall i: nat | Ready(p, token, i)
      ensures Expand(p, j, token) == p.(tab := p.tab[i := p.tab[i].(exp := true)], lists := p.lists[j := p.lists[j] + [i]])
    {
      ListHasRoom(p, j, i);
    }
    var f := Find(p.tab, p.used, token);
    if f.Some? {
      assert Is(p, token, f.value);
      assert !Ready(p, token, f.value) ==> Expand(p, j, token) == p;
    }
  }

  // ----- removal -----

  /** Entry i has gone to the free list, and every other entry is where and as it was. */
  ghost predicate Freed(p: Pool, i: nat, q: Pool) {
    && |q.tab| == |p.tab| && q.lists == p.lists && i < |q.tab| && q.tab[i] == Blank
    && (forall k :: 0 <= k < |p.tab| && k != i ==> q.tab[k] == p.tab[k])
    && (forall k :: k in q.used <==> k in p.used && k != i)
    && (forall k :: k in q.free <==> k in p.free || k == i)
  }

  lemma {:induction false} DeleteExact(p: Pool, i: nat)
    requires Inv(p) && i in p.used && i < |p.tab|
    ensures if p.tab[i].exp then Delete(p, i) == p.(tab := p.tab[i := p.tab[i].(rem := true)]) else Freed(p, i, Delete(p, i))
  {
    if !p.tab[i].exp {
      DeleteLists(p, i);
    }
  }

  /** Removing an alias by name: one that is being expanded is only marked, any other is freed; an unknown name
      changes nothing. */
  lemma {:induction false} UnaliasExact(p: Pool, name: string)
    requires Inv(p)
    ensures forall i: nat :: Is(p, name, i) ==>
              if p.tab[i].exp then Unalias(p, name) == p.(tab := p.tab[i := p.tab[i].(rem := true)])
              else Freed(p, i, Unalias(p, name))
    ensures Unknown(p, name) ==> Unalias(p, name) == p
  {
    FindIs(p, name);
    forall i: nat | Is(p, name, i)
      ensures if p.tab[i].exp then Unalias(p, name) == p.(tab := p.tab[i := p.tab[i].(rem := true)])
              else Freed(p, i, Unalias(p, name))
    {
      DeleteExact(p, i);
    }
  }

  // ----- setting -----

  /** Setting an alias that is there changes its value and nothing else; without memory for the value the alias
      is removed. */
  lemma {:induction false} SaveAgain(p: Pool, name: string, value: string, nameOk: bool, valueOk: bool, i: nat)
    requires Inv(p) && name != "" && Is(p, name, i)
    ensures var q := Save(p, name, value, nameOk, valueOk);
            if valueOk then q == p.(tab := p.tab[i := p.tab[i].(value := Some(value))])
            else if p.tab[i].exp then q == p.(tab := p.tab[i := p.tab[i].(value := None, rem := true)])
            else Freed(p, i, q)
  {
    FindIs(p, name);
    if !valueOk {
      var a := p.tab[i].(value := None);
      if p.tab[i].exp {
        assert p.tab[i := a][i := a.(rem := true)] == p.tab[i := a.(rem := true)];
      } else {
        DeleteExact(p, i);
        assert p.tab[i := a][i := Blank] == p.tab[i := Blank];
      }
    }
  }

  /** Setting a new alias takes the first free entry for it; without one, or without memory, nothing changes. */
  lemma {:induction false} SaveNew(p: Pool, name: string, value: string, nameOk: bool, valueOk: bool)
    requires Inv(p) && Unknown(p, name)
    ensures var q := Save(p, name, value, nameOk, valueOk);
            if name != "" && p.free != [] && nameOk && valueOk then
              var i := p.free[0];
              && q == p.(tab := p.tab[i := Alias(Some(name), Some(value), false, false)],
                         used := p.used + [i], free := p.free[1..])
              && i !in p.used && i !in q.free
            else q == p
  {
    FindIs(p, name);
    if name != "" && p.free != [] {
      var i := p.free[0];
      assert i in p.free;
      if nameOk && valueOk {
        CreateLists(p, i, Alias(Some(name), Some(value), false, false));
      } else {
        CreateFails(p, name, value, nameOk, valueOk);
      }
    }
  }

  // ----- a command line -----

  /** The tokens of a command line, expanded in turn on behalf of list j. */
  function ExpandAll(p: Pool, j: nat, tokens: seq<string>): (q: Pool)
    requires Indices(p.used, |p.tab|) && j < |p.lists|
    decreases |tokens|
  {
    if tokens == [] then p else ExpandAll(Expand(p, j, tokens[0]), j, tokens[1..])
  }

  /** q is p with the aliases of one more list marked, none of which was marked before, and none twice. */
  ghost predicate Holds(p: Pool, l: seq<nat>, q: Pool) {
    && q.used == p.used && q.free == p.free && q.lists == p.lists + [l] && |q.tab| == |p.tab|
    && (forall k :: 0 <= k < |l| ==> l[k] < |p.tab| && !p.tab[l[k]].exp && !p.tab[l[k]].rem)
    && (forall a, b :: 0 <= a < b < |l| ==> l[a] != l[b])
    && (forall k :: 0 <= k < |p.tab| ==> q.tab[k] == if k in l then p.tab[k].(exp := true) else p.tab[k])
  }

  lemma {:induction false} HoldsMore(p: Pool, l: seq<nat>, q: Pool, token: string) returns (m: seq<nat>)
    requires Inv(p) && Inv(q) && Holds(p, l, q)
    ensures Holds(p, m, Expand(q, |p.lists|, token)) && Inv(Expand(q, |p.lists|, token))
  {
    var j := |p.lists|;
    ExpandKeeps(q, j, token);
    ExpandExact(q, j, token);
    m := l;
    if i: nat :| Ready(q, token, i) {
      m := l + [i];
      assert !q.tab[i].rem;
      HoldsOne(p, l, q, i);
    }
  }

  lemma {:induction false} HoldsOne(p: Pool, l: seq<nat>, q: Pool, i: nat)
    requires Holds(p, l, q) && i < |q.tab| && !q.tab[i].exp && !q.tab[i].rem
    ensures var j := |p.lists|;
            Holds(p, l + [i], q.(tab := q.tab[i := q.tab[i].(exp := true)], lists := q.lists[j := q.lists[j] + [i]]))
  {
    var m := l + [i];
    assert i !in l && !p.tab[i].exp;
    assert q.lists[|p.lists| := l + [i]] == p.lists + [m];
    assert forall k :: k in m <==> k in l || k == i;
  }

  lemma {:induction false} HoldsAll(p: Pool, l: seq<nat>, q: Pool, tokens: seq<string>) returns (m: seq<nat>)
    requires Inv(p) && Inv(q) && Holds(p, l, q)
    ensures Holds(p, m, ExpandAll(q, |p.lists|, tokens)) && Inv(ExpandAll(q, |p.lists|, tokens))
    decreases |tokens|
  {
    m := l;
    if tokens != [] {
      m := HoldsMore(p, l, q, tokens[0]);
      m := HoldsAll(p, m, Expand(q, |p.lists|, tokens[0]), tokens[1..]);
    }
  }

  /** Freeing such a list takes everything back. */
  lemma {:induction false} ReleaseBack(p: Pool, l: seq<nat>, q: Pool)
    requires Holds(p, l, q)
    ensures Indices(l, |q.tab|) && Release(q, |p.lists|) == p
    decreases |l|
  {
    var j := |p.lists|;
    if l == [] {
      assert q.tab == p.tab && q.lists[..j] + q.lists[j + 1..] == p.lists;
    } else {
      var i := l[0];
      var r := ReleaseOne(q, j);
      assert i in l && !q.tab[i].rem;
      assert r.lists == p.lists + [l[1..]];
      assert forall k :: k in l <==> k == i || k in l[1..];
      ReleaseBack(p, l[1..], r);
    }
  }

  lemma {:induction false} LineLeaves(p: Pool, tokens: seq<string>) returns (q: Pool)
    requires Inv(p) && Init(p) == p
    ensures var b := Apply(p, BeginOp);
            && Inv(b) && |b.lists| == |p.lists| + 1 && q == ExpandAll(b, |p.lists|, tokens) && Inv(q)
    ensures |q.lists| == |p.lists| + 1 && Indices(q.lists[|p.lists|], |q.tab|) && Release(q, |p.lists|) == p
  {
    ApplyKeeps(p, BeginOp);
    var b := Apply(p, BeginOp);
    q := ExpandAll(b, |p.lists|, tokens);
    var l := HoldsAll(p, [], b, tokens);
    ReleaseBack(p, l, q);
  }

  /** The steps of a command line that expands its tokens and ends. */
  function LineOps(j: nat, tokens: seq<string>): seq<Op> {
    if tokens == [] then [EndOp(j)] else [ExpandOp(j, tokens[0])] + LineOps(j, tokens[1..])
  }

  /** A run is its first step and the rest. */
  lemma {:induction false} RunFirst(p: Pool, op: Op, q: Pool, ops: seq<Op>)
    requires Inv(p) && Init(p) == p && Legal(p, op) && q == Apply(p, op) && Inv(q) && LegalRun(q, ops)
    ensures LegalRun(p, [op] + ops) && After(p, [op] + ops) == After(q, ops)
  {
    assert ([op] + ops)[1..] == ops;
  }

  lemma {:induction false} LineRuns(q: Pool, j: nat, tokens: seq<string>, r: Pool)
    requires Inv(q) && j < |q.lists| && r == ExpandAll(q, j, tokens) && j < |r.lists| && Indices(r.lists[j], |r.tab|)
    ensures LegalRun(q, LineOps(j, tokens)) && After(q, LineOps(j, tokens)) == Release(r, j)
    decreases |tokens|
  {
    if tokens == [] {
      LineEnds(q, j);
    } else {
      LineNext(q, j, tokens[0]);
      var t := Expand(q, j, tokens[0]);
      LineRuns(t, j, tokens[1..], r);
      RunFirst(q, ExpandOp(j, tokens[0]), t, LineOps(j, tokens[1..]));
    }
  }

  lemma {:induction false} LineNext(q: Pool, j: nat, token: string)
    requires Inv(q) && j < |q.lists|
    ensures Init(q) == q && Inv(Expand(q, j, token)) && |Expand(q, j, token).lists| == |q.lists|
    ensures Apply(q, ExpandOp(j, token)) == Expand(q, j, token)
  {
    InitOnce(q);
    ExpandKeeps(q, j, token);
  }

  lemma {:induction false} LineEnds(q: Pool, j: nat)
    requires Inv(q) && j < |q.lists|
    ensures Indices(q.lists[j], |q.tab|) && LegalRun(q, [EndOp(j)]) && After(q, [EndOp(j)]) == Release(q, j)
  {
    InitOnce(q);
    HeldIndices(q, j);
    ReleaseKeeps(q, j);
    RunFirst(q, EndOp(j), Release(q, j), []);
    assert [EndOp(j)] + [] == [EndOp(j)];
  }

  /** A command line that begins, expands any tokens and ends leaves the aliases as they were. */
  lemma {:induction false} LineLeavesNone(p: Pool, tokens: seq<string>)
    requires Inv(p)
    ensures var ops := [BeginOp] + LineOps(|p.lists|, tokens);
            LegalRun(p, ops) && After(p, ops) == p
  {
    InitOnce(p);
    ApplyKeeps(p, BeginOp);
    var q := LineLeaves(p, tokens);
    LineRuns(Apply(p, BeginOp), |p.lists|, tokens, q);
    RunFirst(p, BeginOp, Apply(p, BeginOp), LineOps(|p.lists|, tokens));
  }

  // ----- between command lines the aliases are a map -----

  lemma {:induction false} NoneMarked(p: Pool)
    requires Inv(p) && p.lists == []
    ensures Init(p) == p && forall i :: 0 <= i < |p.tab| ==> !p.tab[i].exp && !p.tab[i].rem
  {
    InitOnce(p);
  }

  /** Setting an alias with success: its name has the new value, and every other name has what it had. */
  lemma {:induction false} SaveIsUpdate(p: Pool, name: string, value: string)
    requires Inv(p) && p.lists == [] && Init(p) == p && name != "" && (p.free != [] || !Unknown(p, name))
    ensures var q := Apply(p, SaveOp(name, value, true, true));
            && Inv(q) && q.lists == []
            && forall n, v :: Has(q, n, v) <==> if n == name then v == value else Has(p, n, v)
  {
    SaveKeeps(p, name, value, true, true);
    if Unknown(p, name) {
      SaveIsNew(p, name, value);
    } else {
      var k: nat :| Is(p, name, k);
      FindIs(p, name);
      SaveAgain(p, name, value, true, true, k);
      HasElse(p, Save(p, name, value, true, true), k, name, value);
    }
  }

  lemma {:induction false} SaveIsNew(p: Pool, name: string, value: string)
    requires Inv(p) && name != "" && p.free != [] && Unknown(p, name)
    ensures var q := Save(p, name, value, true, true);
            Inv(q) && forall n, v :: Has(q, n, v) <==> if n == name then v == value else Has(p, n, v)
  {
    SaveKeeps(p, name, value, true, true);
    SaveNew(p, name, value, true, true);
    var q, k := Save(p, name, value, true, true), p.free[0];
    assert k in p.free && q.used[|p.used|] == k;
    assert forall i :: i in q.used <==> i in p.used || i == k;
    HasElse(p, q, k, name, value);
  }

  /** One entry with the name and the value, and the others as they were. */
  lemma {:induction false} HasElse(p: Pool, q: Pool, k: nat, name: string, value: string)
    requires Inv(p) && Inv(q) && Is(q, name, k) && q.tab[k].value == Some(value) && |q.tab| == |p.tab|
    requires forall i: nat :: Is(p, name, i) ==> i == k
    requires forall i :: 0 <= i < |p.tab| && i != k ==> q.tab[i] == p.tab[i]
    requires forall i :: i in q.used <==> i in p.used || i == k
    requires k in p.used ==> p.tab[k].name == Some(name)
    ensures forall n, v :: Has(q, n, v) <==> if n == name then v == value else Has(p, n, v)
  {
    forall n, v ensures Has(q, n, v) <==> if n == name then v == value else Has(p, n, v) {
      if n != name && Has(p, n, v) {
        var i :| i in p.used && p.tab[i].name == Some(n) && p.tab[i].value == Some(v);
        assert i in q.used && q.tab[i] == p.tab[i];
      }
      if Has(q, n, v) {
        var i :| i in q.used && q.tab[i].name == Some(n) && q.tab[i].value == Some(v);
        assert n == name ==> i == k;
      }
    }
  }

  /** Removing one: its name is gone, and every other has what it had. */
  lemma {:induction false} UnaliasIsRemoval(p: Pool, name: string)
    requires Inv(p) && p.lists == [] && Init(p) == p
    ensures var q := Apply(p, UnaliasOp(name));
            && Inv(q) && q.lists == [] && forall n, v :: Has(q, n, v) <==> n != name && Has(p, n, v)
  {
    UnaliasKeeps(p, name);
    UnaliasExact(p, name);
    NoneMarked(p);
    if k: nat :| Is(p, name, k) {
      HasLess(p, Unalias(p, name), k, name);
    } else {
      forall v ensures !Has(p, name, v) {
        if i :| i in p.used && p.tab[i].name == Some(name) && p.tab[i].value == Some(v) {
          assert Is(p, name, i);
        }
      }
    }
  }

  lemma {:induction false} HasLess(p: Pool, q: Pool, k: nat, name: string)
    requires Inv(p) && Inv(q) && Is(p, name, k) && Freed(p, k, q)
    ensures forall n, v :: Has(q, n, v) <==> n != name && Has(p, n, v)
  {
    forall n, v ensures Has(q, n, v) <==> n != name && Has(p, n, v) {
      if Has(q, n, v) {
        var i :| i in q.used && q.tab[i].name == Some(n) && q.tab[i].value == Some(v);
        assert i in p.used && q.tab[i] == p.tab[i];
      }
      if n != name && Has(p, n, v) {
        var i :| i in p.used && p.tab[i].name == Some(n) && p.tab[i].value == Some(v);
        assert i in q.used && q.tab[i] == p.tab[i];
      }
    }
  }

  /** Removing all leaves none. */
  lemma {:induction false} RemoveAllIsEmpty(p: Pool)
    requires Inv(p) && p.lists == [] && Init(p) == p
    ensures var q := Apply(p, RemoveAllOp); Inv(q) && forall n, v :: !Has(q, n, v)
  {
    RemoveAllKeeps(p);
    NoneMarked(p);
  }
}
