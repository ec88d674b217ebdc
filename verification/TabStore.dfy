/** `addToStorage`: the remembered tabs, a list changed while it is being walked. */
module TabStore {
  datatype Entry = Entry(parent: string, href: string)

  predicate Stale(e: Entry, parent: string, href: string) {
    e.parent == parent && e.href != href
  }

  predicate Known(data: seq<Entry>, parent: string) {
    exists i :: 0 <= i < |data| && data[i].parent == parent
  }

  function Fresh(data: seq<Entry>, parent: string, href: string): seq<Entry> {
    if data == [] then []
    else (if Stale(data[0], parent, href) then [] else [data[0]]) + Fresh(data[1..], parent, href)
  }

  function StaleCount(data: seq<Entry>, parent: string, href: string): nat {
    if data == [] then 0
    else (if Stale(data[0], parent, href) then 1 else 0) + StaleCount(data[1..], parent, href)
  }

  function Copies(e: Entry, n: nat): (r: seq<Entry>)
    ensures |r| == n && forall i :: 0 <= i < n ==> r[i] == e
  {
    if n == 0 then [] else Copies(e, n - 1) + [e]
  }

  /** The list after a call: an unknown parent is added; each stale entry of a known one gives
      way to a new entry at the end. Empty strings are ignored. */
  function Stored(data: seq<Entry>, parent: string, href: string): seq<Entry> {
    if parent == "" || href == "" then data
    else if !Known(data, parent) then data + [Entry(parent, href)]
    else Fresh(data, parent, href) + Copies(Entry(parent, href), StaleCount(data, parent, href))
  }

  lemma {:induction false} FreshOfConcat(a: seq<Entry>, b: seq<Entry>, parent: string, href: string)
    ensures Fresh(a + b, parent, href) == Fresh(a, parent, href) + Fresh(b, parent, href)
    ensures StaleCount(a + b, parent, href) == StaleCount(a, parent, href) + StaleCount(b, parent, href)
  {
    if a == [] {
      assert a + b == b;
    } else {
      assert (a + b)[1..] == a[1..] + b;
      FreshOfConcat(a[1..], b, parent, href);
    }
  }

  lemma {:induction false} AllFresh(a: seq<Entry>, parent: string, href: string)
    requires forall i :: 0 <= i < |a| ==> !Stale(a[i], parent, href)
    ensures Fresh(a, parent, href) == a && StaleCount(a, parent, href) == 0
  {
    if a != [] {
      AllFresh(a[1..], parent, href);
    }
  }

  // ----- the loop

  /** Halfway: the entries kept of those seen, the entries not seen yet, and those pushed. */
  ghost predicate Halfway(
    data: seq<Entry>, seen: seq<Entry>, rest: seq<Entry>, i: nat, unique: bool, obj: Entry)
  {
    var kept := Fresh(seen, obj.parent, obj.href);
    var pushed := StaleCount(seen, obj.parent, obj.href);
    && data == kept + rest + Copies(obj, pushed)
    && (if rest == [] then |kept| <= i <= |data| else i == |kept|)
    && (unique <==> !Known(seen, obj.parent))
    && (pushed > 0 ==> !unique)
  }

  lemma {:induction false} See(data: seq<Entry>, seen: seq<Entry>, rest: seq<Entry>, i: nat, unique: bool, obj: Entry)
    requires Halfway(data, seen, rest, i, unique, obj) && rest != []
    ensures i < |data| && data[i] == rest[0]
    ensures Halfway(
      if Stale(rest[0], obj.parent, obj.href) then data[..i] + data[i + 1..] + [obj] else data,
      seen + [rest[0]], rest[1..],
      if Stale(rest[0], obj.parent, obj.href) then i else i + 1,
      unique && rest[0].parent != obj.parent, obj)
  {
    hide Fresh, StaleCount, Known, Copies;
    var kept, pushed := Fresh(seen, obj.parent, obj.href), StaleCount(seen, obj.parent, obj.href);
    var e := rest[0];
    FreshOfConcat(seen, [e], obj.parent, obj.href);
    FreshOfOne(e, obj.parent, obj.href);
    KnownLast(seen, e, obj.parent);
    OneMoreCopy(obj, pushed);
    assert rest == [e] + rest[1..];
    Move(kept, e, rest[1..], Copies(obj, pushed), obj);
    assert kept + [] == kept;
  }

  lemma OneMoreCopy(e: Entry, n: nat)
    ensures Copies(e, n + 1) == Copies(e, n) + [e]
  {
  }

  /** An entry passed, or taken out and another put at the end. */
  lemma Move(kept: seq<Entry>, e: Entry, more: seq<Entry>, tail: seq<Entry>, x: Entry)
    ensures var data := kept + ([e] + more) + tail;
      && data[|kept|] == e
      && data == kept + [e] + more + tail
      && data[..|kept|] + data[|kept| + 1..] + [x] == kept + more + (tail + [x])
  {
    var data := kept + ([e] + more) + tail;
    assert data[..|kept|] == kept && data[|kept| + 1..] == more + tail;
  }

  lemma FreshOfOne(e: Entry, parent: string, href: string)
    ensures Fresh([e], parent, href) == if Stale(e, parent, href) then [] else [e]
    ensures StaleCount([e], parent, href) == if Stale(e, parent, href) then 1 else 0
  {
    assert [e][1..] == [];
  }

  lemma KnownLast(seen: seq<Entry>, e: Entry, parent: string)
    ensures Known(seen + [e], parent) <==> Known(seen, parent) || e.parent == parent
  {
    var next := seen + [e];
    assert forall i :: 0 <= i < |seen| ==> next[i] == seen[i];
    assert next[|seen|] == e;
  }

  /** Behind the old entries stand only copies of the new one. */
  lemma SeeCopy(data: seq<Entry>, seen: seq<Entry>, i: nat, unique: bool, obj: Entry)
    requires Halfway(data, seen, [], i, unique, obj) && i < |data|
    ensures data[i] == obj && !unique && Halfway(data, seen, [], i + 1, unique, obj)
  {
  }

  lemma AtEnd(data: seq<Entry>, seen: seq<Entry>, rest: seq<Entry>, i: nat, unique: bool, obj: Entry)
    requires Halfway(data, seen, rest, i, unique, obj) && i >= |data|
    ensures rest == [] && i == |data|
  {
  }

  lemma AllSeen(data: seq<Entry>, seen: seq<Entry>, unique: bool, obj: Entry)
    requires Halfway(data, seen, [], |data|, unique, obj) && obj.parent != "" && obj.href != ""
    ensures (if unique then data + [obj] else data) == Stored(seen, obj.parent, obj.href)
  {
    if unique {
      forall i | 0 <= i < |seen| ensures !Stale(seen[i], obj.parent, obj.href) {
        assert seen[i].parent != obj.parent;
      }
      AllFresh(seen, obj.parent, obj.href);
    }
  }

  class Tabs {
    var currentData: seq<Entry>

    constructor ()
      ensures currentData == []
    {
      currentData := [];
    }

    method AddToStorage(parent: string, elem: string)
      modifies this
      ensures currentData == Stored(old(currentData), parent, elem)
    {
      hide Fresh, StaleCount, Known, Stored, Halfway;
      if parent == "" || elem == "" {
        Ignored(currentData, parent, elem);
        return;
      }
      var obj := Entry(parent, elem);
      var unique := true;
      NothingSeen(currentData, obj);
      if |currentData| != 0 {
        ghost var seen, rest := [], currentData;
        var i := 0;
        while i < |currentData|
          invariant seen + rest == old(currentData)
          invariant Halfway(currentData, seen, rest, i, unique, obj)
          decreases |rest|, |currentData| - i
        {
          if rest == [] {
            SeeCopy(currentData, seen, i, unique, obj);
          } else {
            See(currentData, seen, rest, i, unique, obj);
            assert seen + rest == seen + [rest[0]] + rest[1..];
            seen, rest := seen + [rest[0]], rest[1..];
          }
          if currentData[i].parent == parent {
            unique := false;
            if currentData[i].href != elem {
              currentData := currentData[..i] + currentData[i + 1..];
              i := i - 1;
              currentData := currentData + [obj];
            }
          }
          i := i + 1;
        }
        AtEnd(currentData, seen, rest, i, unique, obj);
        assert seen + rest == seen;
        AllSeen(currentData, seen, unique, obj);
        if unique {
          currentData := currentData + [obj];
        }
      } else {
        AllSeen([], [], true, obj);
        currentData := currentData + [obj];
      }
    }
  }

  lemma Ignored(data: seq<Entry>, parent: string, href: string)
    requires parent == "" || href == ""
    ensures Stored(data, parent, href) == data
  {
  }

  lemma NothingSeen(data: seq<Entry>, obj: Entry)
    ensures Halfway(data, [], data, 0, true, obj)
  {
  }

  // ----- what calls do to a list with distinct parents

  predicate Distinct(data: seq<Entry>) {
    forall i, j :: 0 <= i < j < |data| ==> data[i].parent != data[j].parent
  }

  /** The entries of other parents than those in the set. */
  function Others(data: seq<Entry>, parents: set<string>): seq<Entry> {
    if data == [] then []
    else (if data[0].parent in parents then [] else [data[0]]) + Others(data[1..], parents)
  }

  lemma {:induction false} OthersOfConcat(a: seq<Entry>, b: seq<Entry>, ps: set<string>)
    ensures Others(a + b, ps) == Others(a, ps) + Others(b, ps)
  {
    if a == [] {
      assert a + b == b;
    } else {
      assert (a + b)[1..] == a[1..] + b;
      OthersOfConcat(a[1..], b, ps);
    }
  }

  lemma {:induction false} OthersOfFresh(data: seq<Entry>, parent: string, href: string, ps: set<string>)
    requires parent in ps
    ensures Others(Fresh(data, parent, href), ps) == Others(data, ps)
  {
    if data != [] {
      OthersOfFresh(data[1..], parent, href, ps);
      var first := if Stale(data[0], parent, href) then [] else [data[0]];
      OthersOfConcat(first, Fresh(data[1..], parent, href), ps);
      assert [data[0]][1..] == [];
    }
  }

  lemma {:induction false} OthersOfCopies(e: Entry, n: nat, ps: set<string>)
    requires e.parent in ps
    ensures Others(Copies(e, n), ps) == []
  {
    if n > 0 {
      OthersOfCopies(e, n - 1, ps);
      OthersOfConcat(Copies(e, n - 1), [e], ps);
      assert [e][1..] == [];
    }
  }

  /** A call does not touch the other entries, on any list. */
  lemma StoredKeepsOthers(data: seq<Entry>, parent: string, href: string, ps: set<string>)
    requires parent in ps
    ensures Others(Stored(data, parent, href), ps) == Others(data, ps)
  {
    var e := Entry(parent, href);
    OthersOfCopies(e, 1, ps);
    assert Copies(e, 1) == [e];
    OthersOfConcat(data, [e], ps);
    OthersOfFresh(data, parent, href, ps);
    OthersOfCopies(e, StaleCount(data, parent, href), ps);
    OthersOfConcat(Fresh(data, parent, href), Copies(e, StaleCount(data, parent, href)), ps);
  }

  lemma {:induction false} FreshMembers(data: seq<Entry>, parent: string, href: string, e: Entry)
    ensures e in Fresh(data, parent, href) <==> e in data && !Stale(e, parent, href)
  {
    if data != [] {
      FreshMembers(data[1..], parent, href, e);
    }
  }

  /** On distinct parents at most one entry is stale. */
  lemma {:induction false} FreshKeepsDistinct(data: seq<Entry>, parent: string, href: string)
    requires Distinct(data)
    ensures var f := Fresh(data, parent, href);
      && Distinct(f)
      && StaleCount(data, parent, href) == (if exists e :: e in data && Stale(e, parent, href) then 1 else 0)
  {
    if data != [] {
      var rest := Fresh(data[1..], parent, href);
      FreshKeepsDistinct(data[1..], parent, href);
      forall e | e in rest ensures e.parent != data[0].parent {
        FreshMembers(data[1..], parent, href, e);
      }
      assert forall e :: e in data <==> e == data[0] || e in data[1..];
    }
  }

  lemma StoredKeepsDistinct(data: seq<Entry>, parent: string, href: string)
    requires Distinct(data)
    ensures Distinct(Stored(data, parent, href))
    ensures parent != "" && href != "" ==> Entry(parent, href) in Stored(data, parent, href)
  {
    var f, n := Fresh(data, parent, href), StaleCount(data, parent, href);
    FreshKeepsDistinct(data, parent, href);
    if parent != "" && href != "" && Known(data, parent) {
      forall e | e in f ensures e.parent == parent ==> n == 0 {
        FreshMembers(data, parent, href, e);
        if e.parent == parent {
          StaleOrNot(data, parent, href, e);
        }
      }
      var i :| 0 <= i < |data| && data[i].parent == parent;
      FreshMembers(data, parent, href, data[i]);
      assert n == 1 ==> Copies(Entry(parent, href), n)[0] == Entry(parent, href);
    }
  }

  lemma StaleOrNot(data: seq<Entry>, parent: string, href: string, e: Entry)
    requires Distinct(data) && e in data && e.parent == parent && e.href == href
    ensures !exists s :: s in data && Stale(s, parent, href)
  {
    forall s | s in data ensures !Stale(s, parent, href) {
      var i :| 0 <= i < |data| && data[i] == e;
      var j :| 0 <= j < |data| && data[j] == s;
    }
  }

  lemma {:induction false} FreshOfOthers(data: seq<Entry>, parent: string, href: string)
    requires Entry(parent, href) !in data
    ensures Fresh(data, parent, href) == Others(data, {parent})
  {
    if data != [] {
      FreshOfOthers(data[1..], parent, href);
    }
  }

  lemma {:induction false} NoneStale(data: seq<Entry>, parent: string, href: string)
    requires forall e :: e in data ==> !Stale(e, parent, href)
    ensures Fresh(data, parent, href) == data && StaleCount(data, parent, href) == 0
  {
    if data != [] {
      NoneStale(data[1..], parent, href);
    }
  }

  /** From distinct parents a new href takes the last place, and the old one of its parent goes; an
      href already stored stays where it is. */
  lemma StoredExactly(data: seq<Entry>, parent: string, href: string)
    requires Distinct(data)
    ensures Stored(data, parent, href) ==
      if parent == "" || href == "" || Entry(parent, href) in data then data
      else Others(data, {parent}) + [Entry(parent, href)]
  {
    if parent != "" && href != "" {
      if Entry(parent, href) in data {
        StaleOrNot(data, parent, href, Entry(parent, href));
        NoneStale(data, parent, href);
        var i :| 0 <= i < |data| && data[i] == Entry(parent, href);
        assert Copies(Entry(parent, href), 0) == [];
      } else {
        FreshOfOthers(data, parent, href);
        if Known(data, parent) {
          var i :| 0 <= i < |data| && data[i].parent == parent;
          assert Stale(data[i], parent, href);
          FreshKeepsDistinct(data, parent, href);
          assert Copies(Entry(parent, href), 1) == [Entry(parent, href)];
        } else {
          assert forall e :: e in data ==> e.parent != parent;
          NoneStale(data, parent, href);
        }
      }
    }
  }

  // ----- runs

  datatype Call = Call(parent: string, href: string)

  function Run(data: seq<Entry>, calls: seq<Call>): seq<Entry> {
    if calls == [] then data
    else
      var last := calls[|calls| - 1];
      Stored(Run(data, calls[..|calls| - 1]), last.parent, last.href)
  }

  /** The href last stored for a parent, or the one it had at the start. */
  ghost predicate LastStored(data: seq<Entry>, calls: seq<Call>, parent: string, href: string) {
    if calls == [] then Entry(parent, href) in data
    else
      var last := calls[|calls| - 1];
      if last.parent == parent && parent != "" && last.href != "" then href == last.href
      else LastStored(data, calls[..|calls| - 1], parent, href)
  }

  /** The parents for which a call has stored something. */
  function Stores(calls: seq<Call>): set<string> {
    set i | 0 <= i < |calls| && calls[i].parent != "" && calls[i].href != "" :: calls[i].parent
  }

  lemma {:induction false} OthersMembers(data: seq<Entry>, ps: set<string>, e: Entry)
    ensures e in Others(data, ps) <==> e in data && e.parent !in ps
  {
    if data != [] {
      OthersMembers(data[1..], ps, e);
    }
  }

  /** The entries after a call: the new one for its parent, the old ones for all others. */
  lemma StoredMembers(data: seq<Entry>, parent: string, href: string, e: Entry)
    requires Distinct(data)
    ensures var r := Stored(data, parent, href);
      e in r <==> if e.parent == parent && parent != "" && href != "" then e.href == href else e in data
  {
    var r := Stored(data, parent, href);
    StoredKeepsDistinct(data, parent, href);
    StoredKeepsOthers(data, parent, href, {parent});
    OthersMembers(data, {parent}, e);
    OthersMembers(r, {parent}, e);
    if e in r && e.parent == parent && parent != "" && href != "" {
      var i :| 0 <= i < |r| && r[i] == e;
      var j :| 0 <= j < |r| && r[j] == Entry(parent, href);
    }
  }

  /** After every run the parents are distinct, each holds its last href, and the entries of
      parents never stored stand in their old order. */
  lemma {:induction false} RunKeeps(data: seq<Entry>, calls: seq<Call>)
    requires Distinct(data)
    ensures var r := Run(data, calls);
      && Distinct(r)
      && (forall e :: e in r <==> LastStored(data, calls, e.parent, e.href))
      && Others(r, Stores(calls)) == Others(data, Stores(calls))
  {
    var ps := Stores(calls);
    RunKeepsOthers(data, calls, ps);
    if calls != [] {
      var before, last := calls[..|calls| - 1], calls[|calls| - 1];
      RunKeeps(data, before);
      var r := Run(data, before);
      StoredKeepsDistinct(r, last.parent, last.href);
      forall e ensures e in Run(data, calls) <==> LastStored(data, calls, e.parent, e.href) {
        StoredMembers(r, last.parent, last.href, e);
      }
    }
  }

  lemma {:induction false} RunKeepsOthers(data: seq<Entry>, calls: seq<Call>, ps: set<string>)
    requires forall i :: 0 <= i < |calls| && calls[i].parent != "" && calls[i].href != "" ==> calls[i].parent in ps
    ensures Others(Run(data, calls), ps) == Others(data, ps)
  {
    if calls != [] {
      var before, last := calls[..|calls| - 1], calls[|calls| - 1];
      RunKeepsOthers(data, before, ps);
      if last.parent != "" && last.href != "" {
        StoredKeepsOthers(Run(data, before), last.parent, last.href, ps);
      } else {
        Ignored(Run(data, before), last.parent, last.href);
      }
    }
  }
}
