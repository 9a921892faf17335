/**
 NSH aliases: a fixed pool of entries split between a used and a free list. While a command line
 is being parsed the aliases expanded on it are held in a list of its own; removing such an alias
 is deferred until that list is freed.
 */
module NshAlias {
  import opened Basics

  datatype Alias = Alias(name: Option<string>, value: Option<string>, exp: bool, rem: bool)

  const Blank := Alias(None, None, false, false)

  /** The pool, its two lists of entries, and the expansion lists that are live. */
  datatype Pool = Pool(tab: seq<Alias>, used: seq<nat>, free: seq<nat>, lists: seq<seq<nat>>)

  // ----- operations -----

  function Upto(n: nat): (s: seq<nat>)
    ensures |s| == n && forall i :: 0 <= i < n ==> s[i] == i
  {
    seq(n, i => i)
  }

  /** alias_init: only while both lists are empty. */
  function Init(p: Pool): Pool {
    if p.used != [] || p.free != [] then p else p.(free := Upto(|p.tab|))
  }

  ghost predicate Indices(s: seq<nat>, n: nat) {
    forall k :: 0 <= k < |s| ==> s[k] < n
  }

  /** alias_find: the first entry of the list with the name. */
  function Find(tab: seq<Alias>, s: seq<nat>, name: string): (r: Option<nat>)
    requires Indices(s, |tab|)
    ensures r.Some? ==> r.value in s && r.value < |tab| && tab[r.value].name == Some(name)
    ensures r.None? ==> forall k :: 0 <= k < |s| ==> tab[s[k]].name != Some(name)
  {
    if s == [] then None
    else if tab[s[0]].name == Some(name) then Some(s[0])
    else Find(tab, s[1..], name)
  }

  /** sq_rem. */
  function Removed(s: seq<nat>, i: nat): seq<nat> {
    if s == [] then [] else if s[0] == i then s[1..] else [s[0]] + Removed(s[1..], i)
  }

  /** alias_delete: an expanded alias is only marked. */
  function Delete(p: Pool, i: nat): Pool
    requires i < |p.tab|
  {
    if p.tab[i].exp then p.(tab := p.tab[i := p.tab[i].(rem := true)])
    else p.(tab := p.tab[i := Blank], used := Removed(p.used, i), free := [i] + p.free)
  }

  /** What strdup gives. */
  function Dup(s: string, ok: bool): Option<string> {
    if ok then Some(s) else None
  }

  /** alias_save; the flags say whether the copies of name and value can be allocated. */
  function Save(p: Pool, name: string, value: string, nameOk: bool, valueOk: bool): Pool
    requires Indices(p.used, |p.tab|) && Indices(p.free, |p.tab|)
  {
    if name == "" then p
    else
      match Find(p.tab, p.used, name)
      case Some(i) =>
        var q := p.(tab := p.tab[i := p.tab[i].(value := Dup(value, valueOk))]);
        if valueOk then q else Delete(q, i)
      case None =>
        if p.free == [] then p
        else
          var i := p.free[0];
          var a := p.tab[i].(name := Dup(name, nameOk), value := Dup(value, valueOk));
          var q := p.(tab := p.tab[i := a], free := p.free[1..], used := p.used + [i]);
          if nameOk && valueOk then q else Delete(q, i)
  }

  /** unalias of one name. */
  function Unalias(p: Pool, name: string): Pool
    requires Indices(p.used, |p.tab|)
  {
    match Find(p.tab, p.used, name)
    case Some(i) => Delete(p, i)
    case None => p
  }

  /** unalias -a: deletes the entries of the list in turn. */
  function DeleteAll(p: Pool, s: seq<nat>): Pool
    requires Indices(s, |p.tab|)
    decreases |s|
  {
    if s == [] then p else DeleteAll(Delete(p, s[0]), s[1..])
  }

  /** nsh_aliasexpand on behalf of list j: finds an alias that is not expanded yet and takes it in. */
  function Expand(p: Pool, j: nat, token: string): Pool
    requires Indices(p.used, |p.tab|) && j < |p.lists|
  {
    match Find(p.tab, p.used, token)
    case Some(i) =>
      if p.tab[i].exp || p.tab[i].value.None? || |p.lists[j]| >= |p.tab| then p
      else p.(tab := p.tab[i := p.tab[i].(exp := true)], lists := p.lists[j := p.lists[j] + [i]])
    case None => p
  }

  /** nsh_alist_free: clears the first alias of list j, and deletes it if that was deferred. */
  function ReleaseOne(p: Pool, j: nat): Pool
    requires j < |p.lists| && p.lists[j] != [] && p.lists[j][0] < |p.tab|
  {
    var i := p.lists[j][0];
    var q := p.(tab := p.tab[i := p.tab[i].(exp := false)], lists := p.lists[j := p.lists[j][1..]]);
    if p.tab[i].rem then Delete(q, i) else q
  }

  function Release(p: Pool, j: nat): (q: Pool)
    requires j < |p.lists| && Indices(p.lists[j], |p.tab|)
    decreases |p.lists[j]|
  {
    if p.lists[j] == [] then p.(lists := p.lists[..j] + p.lists[j + 1..]) else Release(ReleaseOne(p, j), j)
  }

  // ----- the invariant -----

  /** All aliases held in live lists, with how often. */
  function Held(ls: seq<seq<nat>>): multiset<nat> {
    if ls == [] then multiset{} else multiset(ls[0]) + Held(ls[1..])
  }

  /** Every entry is in exactly one of the two lists, once. */
  ghost predicate Partition(p: Pool) {
    multiset(p.used) + multiset(p.free) == multiset(Upto(|p.tab|))
  }

  /** Names on the used list are there and differ; entries on the free list are blank. */
  ghost predicate Named(p: Pool) {
    && Indices(p.used, |p.tab|) && Indices(p.free, |p.tab|)
    && (forall i :: i in p.used ==> p.tab[i].name.Some?)
    && (forall i, j :: i in p.used && j in p.used && i != j ==> p.tab[i].name != p.tab[j].name)
    && (forall i :: i in p.free ==> p.tab[i] == Blank)
  }

  /** An alias is marked expanded exactly when it is in one live list, once, and marked for removal
      only while expanded; one without a value is on its way out. */
  ghost predicate Marked(p: Pool) {
    forall i :: 0 <= i < |p.tab| ==>
      && Held(p.lists)[i] == (if p.tab[i].exp then 1 else 0)
      && (p.tab[i].rem ==> p.tab[i].exp)
      && (i in p.used && p.tab[i].value.None? ==> p.tab[i].rem)
  }

  ghost predicate Inv(p: Pool) {
    && |p.tab| > 0 && Partition(p) && Named(p) && Marked(p)
    && forall i :: i in Held(p.lists) ==> i < |p.tab|
  }

  lemma {:induction false} UptoOnce(n: nat)
    ensures forall i :: multiset(Upto(n))[i] == if 0 <= i < n then 1 else 0
  {
    forall i ensures multiset(Upto(n))[i] == if 0 <= i < n then 1 else 0 {
      CountOnce(Upto(n), 0, i);
    }
  }

  lemma {:induction false} CountOnce(s: seq<nat>, lo: nat, i: int)
    requires forall k :: 0 <= k < |s| ==> s[k] == lo + k
    ensures multiset(s)[i] == if lo <= i < lo + |s| then 1 else 0
    decreases |s|
  {
    if s != [] {
      assert s == [s[0]] + s[1..];
      CountOnce(s[1..], lo + 1, i);
    }
  }

  lemma {:induction false} RemovedOne(s: seq<nat>, i: nat)
    requires i in s
    ensures multiset(Removed(s, i)) == multiset(s) - multiset{i}
  {
    assert s == [s[0]] + s[1..];
    if s[0] != i {
      RemovedOne(s[1..], i);
    }
  }

  lemma {:induction false} HeldUpdate(ls: seq<seq<nat>>, j: nat, l: seq<nat>, i: nat)
    requires j < |ls|
    ensures Held(ls[j := l])[i] + multiset(ls[j])[i] == Held(ls)[i] + multiset(l)[i]
  {
    if j == 0 {
      assert ls[0 := l][1..] == ls[1..];
    } else {
      assert ls[j := l][1..] == ls[1..][j - 1 := l] && ls[1..][j - 1] == ls[j];
      HeldUpdate(ls[1..], j - 1, l, i);
    }
  }

  lemma {:induction false} HeldDrop(ls: seq<seq<nat>>, j: nat)
    requires j < |ls| && ls[j] == []
    ensures Held(ls[..j] + ls[j + 1..]) == Held(ls)
  {
    if j == 0 {
      assert ls[..0] + ls[1..] == ls[1..];
    } else {
      assert (ls[..j] + ls[j + 1..])[1..] == ls[1..][..j - 1] + ls[1..][j..];
      HeldDrop(ls[1..], j - 1);
    }
  }

  lemma {:induction false} HeldIn(ls: seq<seq<nat>>, j: nat, i: nat)
    requires j < |ls| && i in ls[j]
    ensures i in Held(ls)
  {
    if j > 0 {
      HeldIn(ls[1..], j - 1, i);
    }
  }

  // ----- every operation keeps it -----

  /** An entry is on one of the lists, and not on the other. */
  lemma {:induction false} OnOne(p: Pool, i: nat)
    requires Partition(p) && i < |p.tab|
    ensures i in p.used <==> i !in p.free
    ensures multiset(p.used)[i] <= 1 && multiset(p.free)[i] <= 1
  {
    UptoOnce(|p.tab|);
    assert (multiset(p.used) + multiset(p.free))[i] == 1;
  }

  lemma {:induction false} RemovedLast(s: seq<nat>, i: nat)
    requires i !in s
    ensures Removed(s + [i], i) == s
  {
    if s == [] {
      assert [i][1..] == [];
    } else {
      assert (s + [i])[1..] == s[1..] + [i];
      RemovedLast(s[1..], i);
    }
  }

  lemma {:induction false} DeletePartition(p: Pool, i: nat)
    requires Inv(p) && i in p.used
    ensures Partition(Delete(p, i))
  {
    if !p.tab[i].exp {
      RemovedOne(p.used, i);
      assert multiset([i] + p.free) == multiset{i} + multiset(p.free);
      assert i in multiset(p.used);
    }
  }

  lemma {:induction false} RemovedIn(s: seq<nat>, i: nat, k: nat)
    ensures k in Removed(s, i) ==> k in s
  {
    if s != [] && s[0] != i {
      RemovedIn(s[1..], i, k);
    }
  }

  lemma {:induction false} RemovedStays(s: seq<nat>, i: nat, k: nat)
    requires k in s && k != i
    ensures k in Removed(s, i)
  {
    if s[0] == i {
      assert k in s[1..];
    } else if s[0] != k {
      RemovedStays(s[1..], i, k);
    }
  }

  /** What deleting an alias that is not expanded does to the lists. */
  lemma {:induction false} DeleteLists(p: Pool, i: nat)
    requires Inv(p) && i in p.used && !p.tab[i].exp
    ensures var q := Delete(p, i);
            && Partition(q) && i in q.free && i !in q.used
            && (forall k :: k in q.used <==> k in p.used && k != i)
            && (forall k :: k in q.free <==> k in p.free || k == i)
  {
    var q := Delete(p, i);
    DeletePartition(p, i);
    assert q.free[0] == i;
    OnOne(q, i);
    forall k ensures k in q.used <==> k in p.used && k != i {
      RemovedIn(p.used, i, k);
      if k in p.used && k != i {
        RemovedStays(p.used, i, k);
      }
    }
    assert forall k :: k in q.free ==> k == i || k in p.free;
    assert forall k :: k in p.free ==> k in q.free;
  }

  lemma {:induction false} InBounds(s: seq<nat>, n: nat)
    requires forall k :: k in s ==> k < n
    ensures Indices(s, n)
  {
    assert forall k :: 0 <= k < |s| ==> s[k] in s;
  }

  /** A new value for an alias on the used list. */
  lemma {:induction false} UpdateKeeps(p: Pool, i: nat, a: Alias)
    requires Inv(p) && i in p.used && a.name == p.tab[i].name && a.exp == p.tab[i].exp
    requires (a.rem ==> a.exp) && (a.value.None? ==> a.rem)
    ensures Inv(p.(tab := p.tab[i := a]))
  {
    OnOne(p, i);
  }

  lemma {:induction false} DeleteKeeps(p: Pool, i: nat)
    requires Inv(p) && i in p.used
    ensures Inv(Delete(p, i))
  {
    if p.tab[i].exp {
      UpdateKeeps(p, i, p.tab[i].(rem := true));
    } else {
      FreedKeeps(p, i);
    }
  }

  lemma {:induction false} FreedKeeps(p: Pool, i: nat)
    requires Inv(p) && i in p.used && !p.tab[i].exp
    ensures Inv(Delete(p, i))
  {
    var q := Delete(p, i);
    DeleteLists(p, i);
    InBounds(q.used, |q.tab|);
    InBounds(q.free, |q.tab|);
    assert Named(q);
  }

  /** What creating an alias does to the lists. */
  lemma {:induction false} CreateLists(p: Pool, i: nat, a: Alias)
    requires Inv(p) && p.free != [] && i == p.free[0]
    ensures var q := p.(tab := p.tab[i := a], free := p.free[1..], used := p.used + [i]);
            && Partition(q) && i in q.used && i !in q.free && i in p.free && i !in p.used
            && (forall k :: k in q.used <==> k in p.used || k == i)
            && (forall k :: k in q.free <==> k in p.free && k != i)
  {
    var q := p.(tab := p.tab[i := a], free := p.free[1..], used := p.used + [i]);
    assert p.free == [i] + q.free && i in p.free;
    OnOne(p, i);
    assert q.used[|p.used|] == i;
    assert Partition(q);
    OnOne(q, i);
    assert forall k :: k in p.free ==> k == i || k in q.free;
  }

  /** A new alias: the entry moves from the free to the used list. */
  lemma {:induction false} CreateKeeps(p: Pool, i: nat, name: string, value: string)
    requires Inv(p) && p.free != [] && i == p.free[0]
    requires forall k :: k in p.used ==> p.tab[k].name != Some(name)
    ensures Inv(p.(tab := p.tab[i := Alias(Some(name), Some(value), false, false)],
                   free := p.free[1..], used := p.used + [i]))
  {
    var a := Alias(Some(name), Some(value), false, false);
    var q := p.(tab := p.tab[i := a], free := p.free[1..], used := p.used + [i]);
    CreateLists(p, i, a);
    CreateNamed(p, q, i, name);
    CreateMarked(p, q, i);
  }

  lemma {:induction false} CreateNamed(p: Pool, q: Pool, i: nat, name: string)
    requires Named(p) && i < |p.tab| && |q.tab| == |p.tab| && q.tab[i].name == Some(name)
    requires forall k :: 0 <= k < |p.tab| && k != i ==> q.tab[k] == p.tab[k]
    requires forall k :: k in q.used <==> k in p.used || k == i
    requires forall k :: k in q.free <==> k in p.free && k != i
    requires forall k :: k in p.used ==> p.tab[k].name != Some(name)
    ensures Named(q)
  {
    InBounds(q.used, |q.tab|);
    InBounds(q.free, |q.tab|);
  }

  lemma {:induction false} CreateMarked(p: Pool, q: Pool, i: nat)
    requires Marked(p) && i < |p.tab| && |q.tab| == |p.tab| && q.lists == p.lists
    requires !p.tab[i].exp && !q.tab[i].exp && !q.tab[i].rem && q.tab[i].value.Some?
    requires forall k :: 0 <= k < |p.tab| && k != i ==> q.tab[k] == p.tab[k]
    requires forall k :: k in q.used <==> k in p.used || k == i
    ensures Marked(q)
  {
  }

  /** Creation that fails undoes itself. */
  lemma {:induction false} CreateFails(p: Pool, name: string, value: string, nameOk: bool, valueOk: bool)
    requires Inv(p) && name != "" && p.free != [] && Find(p.tab, p.used, name).None? && !(nameOk && valueOk)
    ensures Save(p, name, value, nameOk, valueOk) == p
  {
    var i := p.free[0];
    assert i in p.free;
    OnOne(p, i);
    RemovedLast(p.used, i);
    assert [i] + p.free[1..] == p.free;
    var a := p.tab[i].(name := Dup(name, nameOk), value := Dup(value, valueOk));
    assert p.tab[i := a][i := Blank] == p.tab;
  }

  lemma {:induction false} SaveExisting(p: Pool, i: nat, value: string, ok: bool)
    requires Inv(p) && i in p.used
    ensures var q := p.(tab := p.tab[i := p.tab[i].(value := Dup(value, ok))]);
            Inv(if ok then q else Delete(q, i))
  {
    var a := p.tab[i].(value := Dup(value, ok));
    if ok {
      UpdateKeeps(p, i, a);
    } else if a.exp {
      UpdateKeeps(p, i, a.(rem := true));
      assert p.tab[i := a][i := a.(rem := true)] == p.tab[i := a.(rem := true)];
    } else {
      DeleteKeeps(p, i);
      assert p.tab[i := a][i := Blank] == p.tab[i := Blank];
    }
  }

  lemma {:induction false} SaveKeeps(p: Pool, name: string, value: string, nameOk: bool, valueOk: bool)
    requires Inv(p)
    ensures Inv(Save(p, name, value, nameOk, valueOk))
  {
    if name != "" {
      var f := Find(p.tab, p.used, name);
      if f.Some? {
        SaveExisting(p, f.value, value, valueOk);
      } else if p.free != [] && nameOk && valueOk {
        assert p.free[0] in p.free;
        CreateKeeps(p, p.free[0], name, value);
      } else if p.free != [] {
        CreateFails(p, name, value, nameOk, valueOk);
      }
    }
  }

  lemma {:induction false} UnaliasKeeps(p: Pool, name: string)
    requires Inv(p)
    ensures Inv(Unalias(p, name))
  {
    var f := Find(p.tab, p.used, name);
    if f.Some? {
      DeleteKeeps(p, f.value);
    }
  }

  /** A list of used entries without repeats. */
  ghost predicate UsedOnce(p: Pool, s: seq<nat>) {
    Indices(s, |p.tab|) && forall i :: i in s ==> i in p.used && multiset(s)[i] == 1
  }

  lemma {:induction false} DeleteAllKeeps(p: Pool, s: seq<nat>)
    requires Inv(p) && UsedOnce(p, s)
    ensures Inv(DeleteAll(p, s)) && DeleteAll(p, s).lists == p.lists && |DeleteAll(p, s).tab| == |p.tab|
    decreases |s|
  {
    if s != [] {
      DeleteFirst(p, s);
      DeleteAllKeeps(Delete(p, s[0]), s[1..]);
    }
  }

  /** Deleting the entries of such a list frees those that are not expanded and marks the others. */
  lemma {:induction false} DeleteAllDoes(p: Pool, s: seq<nat>, i: nat)
    requires Inv(p) && UsedOnce(p, s) && i < |p.tab|
    ensures var q := DeleteAll(p, s);
            && |q.tab| == |p.tab|
            && (i in p.free || (i in s && !p.tab[i].exp) ==> i in q.free)
            && (i in s && p.tab[i].exp ==> q.tab[i].rem)
            && (i !in s ==> q.tab[i] == p.tab[i])
    decreases |s|
  {
    if s != [] {
      DeleteFirst(p, s);
      DeleteAllDoes(Delete(p, s[0]), s[1..], i);
      assert i in s <==> i == s[0] || i in s[1..];
    }
  }

  lemma {:induction false} DeleteFirst(p: Pool, s: seq<nat>)
    requires Inv(p) && s != [] && UsedOnce(p, s)
    ensures s[0] < |p.tab| && s[0] !in s[1..]
    ensures var q := Delete(p, s[0]);
            && Inv(q) && UsedOnce(q, s[1..]) && q.lists == p.lists
            && (forall i :: i in p.free || (i == s[0] && !p.tab[i].exp) ==> i in q.free)
  {
    var i, rest := s[0], s[1..];
    assert s == [i] + rest;
    assert i in s && multiset(s)[i] == 1;
    DeleteKeeps(p, i);
    if !p.tab[i].exp {
      DeleteLists(p, i);
    }
    forall k | k in rest ensures k in Delete(p, i).used && multiset(rest)[k] == 1 {
      assert k in s;
    }
  }

  /** unalias -a: whatever is not expanded is free afterwards, the rest is marked. */
  lemma {:induction false} RemoveAllKeeps(p: Pool)
    requires Inv(p)
    ensures var q := DeleteAll(p, p.used);
            && Inv(q) && |q.tab| == |p.tab| && q.lists == p.lists
            && forall i :: 0 <= i < |p.tab| ==> if p.tab[i].exp then q.tab[i].rem else i in q.free
  {
    forall i | i in p.used ensures multiset(p.used)[i] == 1 {
      OnOne(p, i);
    }
    DeleteAllKeeps(p, p.used);
    forall i | 0 <= i < |p.tab|
      ensures if p.tab[i].exp then DeleteAll(p, p.used).tab[i].rem else i in DeleteAll(p, p.used).free
    {
      OnOne(p, i);
      DeleteAllDoes(p, p.used, i);
    }
  }

  lemma {:induction false} ExpandHeld(p: Pool, j: nat, i: nat)
    requires j < |p.lists|
    ensures var ls := p.lists[j := p.lists[j] + [i]];
            && (forall k: nat :: Held(ls)[k] == Held(p.lists)[k] + if k == i then 1 else 0)
  {
    var ls := p.lists[j := p.lists[j] + [i]];
    forall k: nat ensures Held(ls)[k] == Held(p.lists)[k] + if k == i then 1 else 0 {
      HeldUpdate(p.lists, j, p.lists[j] + [i], k);
    }
  }

  lemma {:induction false} ExpandKeeps(p: Pool, j: nat, token: string)
    requires Inv(p) && j < |p.lists|
    ensures Inv(Expand(p, j, token))
  {
    var q := Expand(p, j, token);
    var f := Find(p.tab, p.used, token);
    if q != p {
      ExpandHeld(p, j, f.value);
      OnOne(p, f.value);
      assert Named(q);
      assert forall k :: k in Held(q.lists) ==> k == f.value || k in Held(p.lists);
    }
  }

  /** Room: a list never fills up while some alias is not expanded. */
  lemma {:induction false} ListHasRoom(p: Pool, j: nat, i: nat)
    requires Inv(p) && j < |p.lists| && i < |p.tab| && !p.tab[i].exp
    ensures |p.lists[j]| < |p.tab|
  {
    var l, whole := multiset(p.lists[j]), multiset(Upto(|p.tab|));
    UptoOnce(|p.tab|);
    forall k: nat ensures l[k] <= (whole - multiset{i})[k] {
      HeldUpdate(p.lists, j, [], k);
      if k in l {
        HeldIn(p.lists, j, k);
      }
    }
    var most := whole - multiset{i};
    assert most == l + (most - l);
    assert whole == most + multiset{i};
  }

  /** The first alias of a live list is expanded and used, and leaves that list only once. */
  lemma {:induction false} HeldFirst(p: Pool, j: nat)
    requires Inv(p) && j < |p.lists| && p.lists[j] != []
    ensures var i := p.lists[j][0];
            && i < |p.tab| && p.tab[i].exp && i in p.used && i !in p.lists[j][1..]
            && forall k: nat :: Held(p.lists[j := p.lists[j][1..]])[k] == Held(p.lists)[k] - if k == i then 1 else 0
  {
    var l := p.lists[j];
    var i := l[0];
    assert l == [i] + l[1..];
    HeldIn(p.lists, j, i);
    OnOne(p, i);
    forall k: nat ensures Held(p.lists[j := l[1..]])[k] == Held(p.lists)[k] - if k == i then 1 else 0 {
      HeldUpdate(p.lists, j, l[1..], k);
    }
    if i in l[1..] {
      assert p.lists[j := l[1..]][j] == l[1..];
      HeldIn(p.lists[j := l[1..]], j, i);
    }
  }

  /** Clearing the mark of the first alias of a list, with any value in place of a missing one. */
  lemma {:induction false} ClearKeeps(p: Pool, j: nat, a: Alias)
    requires Inv(p) && j < |p.lists| && p.lists[j] != [] && p.lists[j][0] < |p.tab|
    requires a.name == p.tab[p.lists[j][0]].name && a.value.Some? && !a.exp && !a.rem
    ensures Inv(p.(tab := p.tab[p.lists[j][0] := a], lists := p.lists[j := p.lists[j][1..]]))
  {
    HeldFirst(p, j);
    var i := p.lists[j][0];
    var q := p.(tab := p.tab[i := a], lists := p.lists[j := p.lists[j][1..]]);
    OnOne(p, i);
    assert Named(q);
    assert forall k: nat :: k in Held(q.lists) ==> k in Held(p.lists);
  }

  lemma {:induction false} ReleaseOneKeeps(p: Pool, j: nat)
    requires Inv(p) && j < |p.lists| && p.lists[j] != []
    ensures p.lists[j][0] < |p.tab| && Inv(ReleaseOne(p, j))
    ensures var i, q := p.lists[j][0], ReleaseOne(p, j);
            && |q.tab| == |p.tab| && q.lists == p.lists[j := p.lists[j][1..]]
            && (if p.tab[i].rem then i in q.free else i in q.used && q.tab[i] == p.tab[i].(exp := false))
            && (forall k :: k in p.free ==> k in q.free)
            && (forall k :: 0 <= k < |p.tab| && k != i ==> q.tab[k] == p.tab[k])
  {
    HeldFirst(p, j);
    var i := p.lists[j][0];
    if p.tab[i].rem {
      var a := Alias(p.tab[i].name, Some(""), false, false);
      ClearKeeps(p, j, a);
      var r := p.(tab := p.tab[i := a], lists := p.lists[j := p.lists[j][1..]]);
      DeleteKeeps(r, i);
      DeleteLists(r, i);
      assert p.tab[i := p.tab[i].(exp := false)][i := Blank] == p.tab[i := a][i := Blank];
    } else {
      ClearKeeps(p, j, p.tab[i].(exp := false));
    }
  }

  lemma {:induction false} HeldIndices(p: Pool, j: nat)
    requires Inv(p) && j < |p.lists|
    ensures Indices(p.lists[j], |p.tab|)
  {
    forall k | 0 <= k < |p.lists[j]| ensures p.lists[j][k] < |p.tab| {
      HeldIn(p.lists, j, p.lists[j][k]);
    }
  }

  /** Freeing a list completes every removal that was deferred on its account, and clears the mark
      of its other aliases. */
  lemma {:induction false} ReleaseKeeps(p: Pool, j: nat)
    requires Inv(p) && j < |p.lists|
    ensures Indices(p.lists[j], |p.tab|) && Inv(Release(p, j))
    ensures var q := Release(p, j);
            && |q.tab| == |p.tab| && q.lists == p.lists[..j] + p.lists[j + 1..]
            && (forall k :: k in p.free ==> k in q.free)
            && (forall i :: i in p.lists[j] && p.tab[i].rem ==> i in q.free)
            && (forall i :: i in p.lists[j] && !p.tab[i].rem ==> q.tab[i] == p.tab[i].(exp := false))
            && (forall i :: 0 <= i < |p.tab| && i !in p.lists[j] ==> q.tab[i] == p.tab[i])
    decreases |p.lists[j]|
  {
    HeldIndices(p, j);
    var l := p.lists[j];
    if l == [] {
      HeldDrop(p.lists, j);
      assert Named(Release(p, j));
    } else {
      ReleaseOneKeeps(p, j);
      HeldFirst(p, j);
      var q := ReleaseOne(p, j);
      assert l == [l[0]] + l[1..] && q.lists[j] == l[1..];
      ReleaseKeeps(q, j);
      assert q.lists[..j] + q.lists[j + 1..] == p.lists[..j] + p.lists[j + 1..];
    }
  }

  /** When the last live list is freed no mark is left, and every deferred removal is complete. */
  lemma {:induction false} LastRelease(p: Pool)
    requires Inv(p) && |p.lists| == 1
    ensures Indices(p.lists[0], |p.tab|)
    ensures var q := Release(p, 0);
            && Inv(q) && q.lists == [] && |q.tab| == |p.tab|
            && (forall i :: 0 <= i < |q.tab| ==> !q.tab[i].exp && !q.tab[i].rem)
            && (forall i :: 0 <= i < |p.tab| && p.tab[i].rem ==> i in q.free)
  {
    ReleaseKeeps(p, 0);
    forall i | 0 <= i < |p.tab| && p.tab[i].rem ensures i in p.lists[0] {
      assert Held(p.lists)[i] == 1;
      assert p.lists[1..] == [];
    }
  }

  // ----- runs -----

  datatype Op =
    | SaveOp(name: string, value: string, nameOk: bool, valueOk: bool)
    | UnaliasOp(name: string)
    | RemoveAllOp
    | BeginOp
    | ExpandOp(j: nat, token: string)
    | EndOp(j: nat)

  ghost predicate Legal(p: Pool, op: Op) {
    (op.ExpandOp? || op.EndOp?) ==> op.j < |p.lists|
  }

  /** Every command initialises first if that is still to be done. */
  ghost function Apply(p: Pool, op: Op): Pool
    requires Inv(Init(p)) && Legal(Init(p), op)
  {
    var q := Init(p);
    match op
    case SaveOp(name, value, nameOk, valueOk) => Save(q, name, value, nameOk, valueOk)
    case UnaliasOp(name) => Unalias(q, name)
    case RemoveAllOp => DeleteAll(q, q.used)
    case BeginOp => q.(lists := q.lists + [[]])
    case ExpandOp(j, token) => Expand(q, j, token)
    case EndOp(j) => HeldIndices(q, j); Release(q, j)
  }

  lemma {:induction false} HeldBegin(ls: seq<seq<nat>>)
    ensures Held(ls + [[]]) == Held(ls)
  {
    if ls == [] {
      assert ls + [[]] == [[]];
    } else {
      assert (ls + [[]])[1..] == ls[1..] + [[]];
      HeldBegin(ls[1..]);
    }
  }

  /** Initialisation fires once: never again once the lists are filled. */
  lemma {:induction false} InitOnce(p: Pool)
    requires Inv(p)
    ensures Init(p) == p
  {
    OnOne(p, 0);
  }

  lemma {:induction false} InitFills(n: nat)
    requires n > 0
    ensures Inv(Init(Pool(seq(n, i => Blank), [], [], [])))
  {
    UptoOnce(n);
  }

  lemma {:induction false} ApplyKeeps(p: Pool, op: Op)
    requires Inv(p) && Init(p) == p && Legal(p, op)
    ensures Inv(Apply(p, op))
  {
    match op
    case SaveOp(name, value, nameOk, valueOk) => SaveKeeps(p, name, value, nameOk, valueOk);
    case UnaliasOp(name) => UnaliasKeeps(p, name);
    case RemoveAllOp => RemoveAllKeeps(p);
    case BeginOp =>
      HeldBegin(p.lists);
      assert Named(p.(lists := p.lists + [[]]));
    case ExpandOp(j, token) => ExpandKeeps(p, j, token);
    case EndOp(j) => ReleaseKeeps(p, j);
  }

  ghost predicate LegalRun(p: Pool, ops: seq<Op>)
    requires Inv(p)
    decreases |ops|
  {
    InitOnce(p);
    ops == [] || (Legal(p, ops[0]) && (ApplyKeeps(p, ops[0]); LegalRun(Apply(p, ops[0]), ops[1..])))
  }

  ghost function After(p: Pool, ops: seq<Op>): Pool
    requires Inv(p) && LegalRun(p, ops)
    decreases |ops|
  {
    InitOnce(p);
    if ops == [] then p else (ApplyKeeps(p, ops[0]); After(Apply(p, ops[0]), ops[1..]))
  }

  /** In every run: the two lists split the pool, initialisation stays done, and no alias in a live
      expansion list is on the free list. */
  lemma {:induction false} PoolSafe(p: Pool, ops: seq<Op>)
    requires Inv(p) && LegalRun(p, ops)
    ensures var q := After(p, ops);
            && Inv(q) && Init(q) == q
            && forall j, i :: 0 <= j < |q.lists| && i in q.lists[j] ==> i in q.used && i !in q.free
    decreases |ops|
  {
    InitOnce(p);
    if ops == [] {
      forall j, i | 0 <= j < |p.lists| && i in p.lists[j] ensures i in p.used && i !in p.free {
        HeldIn(p.lists, j, i);
        OnOne(p, i);
      }
    } else {
      ApplyKeeps(p, ops[0]);
      PoolSafe(Apply(p, ops[0]), ops[1..]);
    }
  }

  /** The pool has an alias of the name with the value. */
  ghost predicate Has(p: Pool, name: string, value: string)
    requires Indices(p.used, |p.tab|)
  {
    exists i :: i in p.used && p.tab[i].name == Some(name) && p.tab[i].value == Some(value)
  }

  /** Freeing a list changes the name and the value of no alias that stays, and brings none back. */
  lemma {:induction false} ReleaseStays(p: Pool, j: nat, i: nat)
    requires Inv(p) && j < |p.lists| && i < |p.tab|
    ensures Indices(p.lists[j], |p.tab|) && |Release(p, j).tab| == |p.tab|
    ensures var q := Release(p, j);
            && (i in q.used <==> i in p.used && !(i in p.lists[j] && p.tab[i].rem))
            && (i in q.used ==> q.tab[i].name == p.tab[i].name && q.tab[i].value == p.tab[i].value)
  {
    ReleaseKeeps(p, j);
    var q := Release(p, j);
    OnOne(p, i);
    OnOne(q, i);
    if i in p.used && !(i in p.lists[j] && p.tab[i].rem) {
      assert q.tab[i].name == p.tab[i].name;
    }
  }

  /** Setting an alias with success puts it into the pool, under a new or its old entry. */
  lemma {:induction false} SaveDoes(p: Pool, name: string, value: string) returns (i: nat)
    requires Inv(p) && name != "" && (Find(p.tab, p.used, name).Some? || p.free != [])
    ensures var q := Save(p, name, value, true, true);
            && Inv(q) && q.lists == p.lists && |q.tab| == |p.tab|
            && i in q.used && i < |q.tab| && q.tab[i].name == Some(name) && q.tab[i].value == Some(value)
            && (q.tab[i].rem <==> exists k :: k in p.used && p.tab[k].name == Some(name) && p.tab[k].rem)
    ensures Find(p.tab, p.used, name).Some? ==> i == Find(p.tab, p.used, name).value
  {
    SaveKeeps(p, name, value, true, true);
    var f := Find(p.tab, p.used, name);
    i := if f.Some? then f.value else p.free[0];
    if f.None? {
      assert i in p.free;
    }
  }

  /** An alias that is set is there after an expansion ends if and only if it had not been removed while
      that expansion held it. */
  lemma {:induction false} SetStaysExact(p: Pool, name: string, value: string, j: nat)
    requires Inv(p) && name != "" && j < |p.lists| && (Find(p.tab, p.used, name).Some? || p.free != [])
    ensures var q := Save(p, name, value, true, true);
            && Inv(q) && j < |q.lists| && Indices(q.lists[j], |q.tab|) && Inv(Release(q, j))
            && (Has(Release(q, j), name, value)
                <==> !exists i :: i in p.lists[j] && i in p.used && p.tab[i].name == Some(name) && p.tab[i].rem)
  {
    var i := SaveDoes(p, name, value);
    var q := Save(p, name, value, true, true);
    ReleaseKeeps(q, j);
    ReleaseStays(q, j, i);
    var r := Release(q, j);
    if i in r.used {
      assert r.tab[i].name == Some(name) && r.tab[i].value == Some(value);
    } else {
      assert i in p.lists[j] && i in q.used && q.tab[i].rem;
      forall k | k in r.used ensures r.tab[k].name != Some(name) {
        ReleaseStays(q, j, k);
      }
    }
  }
}
