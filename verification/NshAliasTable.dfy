/** The alias pool as the session keeps it: a table of entries and lists changed in place. */
module NshAliasTable {
  import opened Basics
  import opened NshAlias
  import opened NshAliasSteps

  class AliasTable {
    const tab: array<Alias>
    var used: seq<nat>
    var free: seq<nat>
    var lists: seq<seq<nat>>

    ghost function Now(): Pool
      reads this, tab
    {
      Pool(tab[..], used, free, lists)
    }

    ghost predicate Valid()
      reads this, tab
    {
      Inv(Now())
    }

    constructor (n: nat)
      requires n > 0
      ensures fresh(tab) && Now() == Pool(seq(n, i => Blank), [], [], []) && Inv(Init(Now()))
    {
      tab := new Alias[n](i => Blank);
      used, free, lists := [], [], [];
      new;
      assert tab[..] == seq(n, i => Blank);
      InitFills(n);
    }

    method AliasInit()
      requires Inv(Init(Now()))
      modifies this
      ensures Now() == Init(old(Now())) && Valid()
    {
      if used != [] || free != [] {
        return;
      }
      var i := 0;
      while i < tab.Length
        invariant i <= tab.Length && free == Upto(i) && used == old(used) && lists == old(lists)
      {
        free := free + [i];
        i := i + 1;
      }
    }

    method AliasFind(name: string) returns (r: Option<nat>)
      requires Indices(used, tab.Length)
      ensures r == Find(tab[..], used, name)
    {
      var k := 0;
      assert used[0..] == used;
      while k < |used|
        invariant k <= |used| && Find(tab[..], used, name) == Find(tab[..], used[k..], name)
      {
        assert used[k..][1..] == used[k + 1..];
        if tab[used[k]].name == Some(name) {
          return Some(used[k]);
        }
        k := k + 1;
      }
      r := None;
    }

    /** sq_rem on the used list: walks to the entry and unlinks it, if it is there. */
    method Unlink(i: nat)
      modifies this`used
      ensures used == Removed(old(used), i)
      ensures multiset(used) == multiset(old(used)) - multiset{i}
    {
      var k := 0;
      assert used[..0] + Removed(used[0..], i) == Removed(used, i);
      while k < |used| && used[k] != i
        invariant k <= |used| && used == old(used) && i !in used[..k]
        invariant used[..k] + Removed(used[k..], i) == Removed(used, i)
      {
        RemovedNext(used, k, i);
        k := k + 1;
      }
      if k < |used| {
        RemovedOne(used, i);
        used := used[..k] + used[k + 1..];
      } else {
        assert used[..k] == used;
      }
    }

    /** alias_delete: an alias that is expanded is only marked, and any other goes from the used list to
        the front of the free list, blank; no other entry of either list moves. */
    method AliasDelete(i: nat)
      requires i < tab.Length
      modifies this`used, this`free, tab
      ensures Now() == Delete(old(Now()), i)
      ensures old(tab[i]).exp ==> tab[i].rem && used == old(used) && free == old(free)
      ensures !old(tab[i]).exp && i in old(used) ==>
                && multiset(used) + multiset(free) == old(multiset(used) + multiset(free))
                && free == [i] + old(free) && tab[i] == Blank
    {
      if tab[i].exp {
        tab[i] := tab[i].(rem := true);
        return;
      }
      tab[i] := Blank;
      Unlink(i);
      free := [i] + free;
    }

    /** A new value for an alias that exists. */
    method SetValue(i: nat, value: string, ok: bool)
      requires i < tab.Length
      modifies this`used, this`free, tab
      ensures var q := old(Now()).(tab := old(tab[..])[i := old(tab[i]).(value := Dup(value, ok))]);
              Now() == if ok then q else Delete(q, i)
    {
      tab[i] := tab[i].(value := Dup(value, ok));
      if !ok {
        AliasDelete(i);
      }
    }

    /** An entry from the free list for a new alias. */
    method Create(name: string, value: string, nameOk: bool, valueOk: bool)
      requires free != [] && free[0] < tab.Length
      modifies this`used, this`free, tab
      ensures var i := old(free[0]);
              var a := old(tab[i]).(name := Dup(name, nameOk), value := Dup(value, valueOk));
              var q := old(Now()).(tab := old(tab[..])[i := a], free := old(free[1..]), used := old(used) + [i]);
              Now() == if nameOk && valueOk then q else Delete(q, i)
    {
      var i := free[0];
      tab[i] := tab[i].(name := Dup(name, nameOk), value := Dup(value, valueOk));
      free, used := free[1..], used + [i];
      if !nameOk || !valueOk {
        AliasDelete(i);
      }
    }

    method AliasSave(name: string, value: string, nameOk: bool, valueOk: bool) returns (ok: bool)
      requires Valid()
      modifies this`used, this`free, tab
      ensures Now() == Save(old(Now()), name, value, nameOk, valueOk) && Valid()
      ensures ok <==> name != "" && valueOk && (Find(old(tab[..]), old(used), name).Some? || (nameOk && old(free) != []))
    {
      SaveKeeps(Now(), name, value, nameOk, valueOk);
      if name == "" {
        return false;
      }
      var f := AliasFind(name);
      if f.Some? {
        SetValue(f.value, value, valueOk);
        ok := valueOk;
      } else if free != [] {
        assert free[0] in free;
        Create(name, value, nameOk, valueOk);
        ok := nameOk && valueOk;
      } else {
        ok := false;
      }
    }

    method RemoveAll()
      requires Valid()
      modifies this`used, this`free, tab
      ensures Now() == DeleteAll(old(Now()), old(used)) && Valid()
    {
      RemoveAllKeeps(Now());
      var s, k := used, 0;
      assert s[0..] == s;
      while k < |s|
        invariant k <= |s| && lists == old(lists) && DeleteAll(Now(), s[k..]) == DeleteAll(old(Now()), s)
      {
        assert s[k..][1..] == s[k + 1..];
        AliasDelete(s[k]);
        k := k + 1;
      }
    }

    method ExpandToken(j: nat, token: string) returns (expanded: bool)
      requires Valid() && j < |lists|
      modifies this`lists, tab
      ensures Now() == Expand(old(Now()), j, token) && Valid()
      ensures expanded <==> exists i: nat :: Ready(old(Now()), token, i)
      ensures !expanded ==> Now() == old(Now())
      ensures forall i: nat :: Ready(old(Now()), token, i) ==> tab[i].exp && lists == old(lists)[j := old(lists)[j] + [i]]
    {
      ghost var p := Now();
      ExpandKeeps(p, j, token);
      ExpandExact(p, j, token);
      FindIs(p, token);
      var f := AliasFind(token);
      expanded := f.Some? && !tab[f.value].exp && tab[f.value].value.Some?;
      if expanded {
        ListHasRoom(Now(), j, f.value);
        lists := lists[j := lists[j] + [f.value]];
        tab[f.value] := tab[f.value].(exp := true);
        assert Now().tab[f.value].exp && Ready(p, token, f.value);
      }
    }

    method ListFree(j: nat)
      requires Valid() && j < |lists|
      modifies this, tab
      ensures old(Indices(lists[j], tab.Length)) && Now() == Release(old(Now()), j) && Valid()
    {
      ReleaseKeeps(Now(), j);
      while lists[j] != []
        invariant j < |lists| && Valid() && Indices(lists[j], tab.Length)
        invariant Release(Now(), j) == Release(old(Now()), j)
        decreases |lists[j]|
      {
        ReleaseOneKeeps(Now(), j);
        HeldIndices(ReleaseOne(Now(), j), j);
        var i := lists[j][0];
        tab[i] := tab[i].(exp := false);
        lists := lists[j := lists[j][1..]];
        if tab[i].rem {
          AliasDelete(i);
        }
      }
      lists := lists[..j] + lists[j + 1..];
    }
  }

  lemma {:induction false} RemovedNext(s: seq<nat>, k: nat, i: nat)
    requires k < |s| && s[k] != i
    ensures s[..k] + Removed(s[k..], i) == s[..k + 1] + Removed(s[k + 1..], i)
  {
    assert s[k..][1..] == s[k + 1..];
    assert s[..k] + [s[k]] == s[..k + 1];
    Assoc(s[..k], [s[k]], Removed(s[k + 1..], i));
  }
}
