/** What `listen` adds, that `unlisten` takes it away again, and when `unlisten` finds what it
    is asked to remove. */
module EventUndo {
  import opened EventModel
  import opened EventInvariants
  import opened EventDispatch
  import opened Wrappers

  function Items(r: Registry, s: Slot): seq<Key> {
    if s in r.arrays then r.arrays[s].items else []
  }

  /** In r' there is a new record with key k, last in its array and in its source's list, and
      no other record, array or list has changed. */
  ghost predicate Entered(r: Registry, r': Registry, s: Slot, f: Callback, h: Handler, k: Key) {
    && k !in r.records
    && r'.records == r.records[k := Listener(s, f, h, false, false)]
    && r'.listeners == r.listeners + {k}
    && s in r'.arrays && r'.arrays[s].items == Items(r, s) + [k]
    && r'.arrays == r.arrays[s := r'.arrays[s]]
    && r'.sources == r.sources[s.src := (if s.src in r.sources then r.sources[s.src] else []) + [k]]
    && r'.fired == r.fired
  }

  /** `listen` returns the live record that is the first match, and then only counts the call in
      `remaining_`; or it enters a new record; or it throws: without a type before it has done
      anything, without a source with the nodes in the tree, and on an invalid listener with the
      nodes and the array. */
  lemma ListenExactly(r: Registry, s: Slot, f: Callback, h: Handler)
    requires Inv(r)
    ensures var (r', k) := Listen(r, s, f, h);
      var items := Items(r, s);
      var i := FirstMatch(r, items, f, h);
      if s.phase.typ == NO_TYPE then k == None && r' == r
      else if s.src == NO_SOURCE then
        && k == None && r' == r.(types := r'.types, phases := r'.phases)
        && r'.phases == if s.phase in r.phases then r.phases else r.phases[s.phase := PhaseNode(0, 0)]
      else if i < |items| && Live(r, items[i]) then k == Some(items[i]) && r' == r.(phases := r'.phases)
      else if f == NO_LISTENER then
        && k == None && r' == r.(types := r'.types, phases := r'.phases, arrays := r'.arrays)
        && r'.arrays == (if s in r.arrays then r.arrays else r.arrays[s := ListenerArray([], 0, false)])
      else k.Some? && Entered(r, r', s, f, h, k.value)
  {
    hide Inv, Entered, FirstMatch, AddRecord, RecordsOk, CountsOk, ArraysOk, SourcesOk;
    RecordsOfInv(r);
    EnterKnownPhase(r, s);
    SameMatch(r, EnterPhase(r, s.phase), Items(r, s), f, h, 0);
    RecordEnters(r, s, f, h);
  }

  /** A call that gets to the array is counted in `remaining_` of its phase, and in no other. */
  lemma ListenCounts(r: Registry, s: Slot, f: Callback, h: Handler, p: Phase)
    ensures var counted := p == s.phase && p.typ != NO_TYPE && s.src != NO_SOURCE;
      Remaining(Listen(r, s, f, h).0, p) == Remaining(r, p) + if counted then 1 else 0
  {
    hide FirstMatch, Prepared, AddRecord;
    PreparedCounted(r, s, p);
    AddRecordCounted(Prepared(r, s), s, f, h);
  }

  lemma PreparedCounted(r: Registry, s: Slot, p: Phase)
    ensures Remaining(Prepared(r, s), p) == Remaining(r, p) + if p == s.phase then 1 else 0
  {
  }

  lemma AddRecordCounted(r: Registry, s: Slot, f: Callback, h: Handler)
    requires s in r.arrays
    ensures AddRecord(r, s, f, h).phases == r.phases
  {
  }

  lemma RecordsOfInv(r: Registry)
    requires Inv(r)
    ensures RecordsOk(r) && CountsOk(r) && ArraysOk(r) && SourcesOk(r)
  {
  }

  lemma EnterKnownPhase(r: Registry, s: Slot)
    requires CountsOk(r)
    ensures s in r.arrays ==> EnterPhase(r, s.phase) == r.(phases := EnterPhase(r, s.phase).phases)
  {
    assert s in r.arrays.Keys <==> s in r.arrays;
  }

  lemma RecordEnters(r: Registry, s: Slot, f: Callback, h: Handler)
    requires RecordsOk(r)
    ensures Entered(r, AddRecord(Prepared(r, s), s, f, h), s, f, h, r.counter + 1)
  {
    var r1 := Prepared(r, s);
    assert r1.arrays[s].items == Items(r, s);
  }

  lemma {:induction false} SameMatch(r: Registry, r': Registry, items: seq<Key>, f: Callback, h: Handler, from: nat)
    requires from <= |items| && forall k :: k in items ==> Matches(r, k, f, h) == Matches(r', k, f, h)
    ensures FirstMatch(r, items, f, h, from) == FirstMatch(r', items, f, h, from)
    decreases |items| - from
  {
    if from < |items| {
      SameMatch(r, r', items, f, h, from + 1);
    }
  }

  // ----- what removal by key takes away

  /** One occurrence of k has been taken out. */
  ghost predicate Taken(s: seq<Key>, s': seq<Key>, k: Key) {
    exists i :: 0 <= i < |s| && s[i] == k && s' == s[..i] + s[i + 1..]
  }

  lemma TakenBehind(j: Key, s: seq<Key>, s': seq<Key>, k: Key)
    requires Taken(s, s', k)
    ensures Taken([j] + s, [j] + s', k)
  {
    var i :| 0 <= i < |s| && s[i] == k && s' == s[..i] + s[i + 1..];
    var t := [j] + s;
    assert t[..i + 1] == [j] + s[..i] && t[i + 2..] == s[i + 1..];
    assert t[i + 1] == k && [j] + s' == t[..i + 1] + t[i + 1 + 1..];
  }

  lemma {:induction false} RemoveFirstTakes(s: seq<Key>, k: Key)
    requires k in s
    ensures Taken(s, RemoveFirst(s, k), k)
  {
    if s[0] == k {
      assert s[1..] == s[..0] + s[0 + 1..];
    } else {
      RemoveFirstTakes(s[1..], k);
      TakenBehind(s[0], s[1..], RemoveFirst(s[1..], k), k);
      assert s == [s[0]] + s[1..];
    }
  }

  lemma {:induction false} LiveAll(r: Registry, items: seq<Key>)
    requires forall j :: j in items ==> Live(r, j)
    ensures LiveItems(r, items) == items
  {
    if items != [] {
      LiveAll(r, items[1..]);
      assert items == [items[0]] + items[1..];
    }
  }

  lemma {:induction false} LiveButOne(r: Registry, items: seq<Key>, k: Key)
    requires Distinct(items) && k in items && forall j :: j in items ==> (Live(r, j) <==> j != k)
    ensures Taken(items, LiveItems(r, items), k)
  {
    var rest := items[1..];
    assert items == [items[0]] + rest;
    if items[0] == k {
      assert forall j :: j in rest ==> j != k;
      LiveAll(r, rest);
      assert LiveItems(r, items) == [] + rest == items[..0] + items[0 + 1..];
    } else {
      LiveButOne(r, rest, k);
      TakenBehind(items[0], rest, LiveItems(r, rest), k);
    }
  }

  lemma TakenAll(s: seq<Key>, s': seq<Key>, k: Key)
    requires Taken(s, s', k)
    ensures s' == [] <==> s == [k]
  {
  }

  lemma CleanUpExactly(r: Registry, s: Slot)
    requires HasArray(r, s)
    ensures var r', a := CleanUp(r, s), r.arrays[s];
      && r' == r.(arrays := r'.arrays, phases := r'.phases, types := r'.types)
      && (forall p :: p in r'.phases ==> p in r.phases && r'.phases[p].remaining == r.phases[p].remaining)
      && r'.arrays ==
        if a.locked > 0 || !a.needsCleanup then r.arrays
        else if LiveItems(r, a.items) == [] then r.arrays - {s}
        else r.arrays[s := ListenerArray(LiveItems(r, a.items), 0, false)]
  {
    hide LiveItems;
    if r.arrays[s].locked > 0 || !r.arrays[s].needsCleanup {
      assert CleanUp(r, s) == r;
    }
  }

  lemma RetireParts(r: Registry, k: Key)
    requires Inv(r) && k in r.listeners
    ensures var s := r.records[k].slot;
      && HasArray(r, s) && HasArray(Retire(r, k), s)
      && Retire(r, k).arrays == r.arrays[s := r.arrays[s].(needsCleanup := true)]
      && (r.arrays[s].locked == 0 ==> Taken(r.arrays[s].items, LiveItems(Retire(r, k), r.arrays[s].items), k))
  {
    ListenerIsIndexed(r, k);
    hide CountsOk, IndexesOk, SourcesOk, LiveItems, Taken;
    var s := r.records[k].slot;
    if r.arrays[s].locked == 0 {
      assert ArrayOk(r, s, r.arrays[s]);
      LiveButOne(Retire(r, k), r.arrays[s].items, k);
    }
  }

  /** Removal by key marks this record alone, and takes it out of its source's list and, unless the
      array is locked, out of its array; the order of the rest stays, and nothing else changes but
      the nodes of an array that goes. */
  lemma UnlistenByKeyExactly(r: Registry, k: Key)
    requires Inv(r) && k in r.listeners
    ensures var s, r' := r.records[k].slot, UnlistenByKey(r, k).0;
      && r'.records == r.records[k := r.records[k].(removed := true)] && r'.listeners == r.listeners - {k}
      && r'.counter == r.counter && r'.fired == r.fired
      && (forall p :: p in r'.phases ==> p in r.phases && r'.phases[p].remaining == r.phases[p].remaining)
      && s in r.arrays && s.src in r.sources
      && (forall x :: x != s.src ==>
            (x in r'.sources <==> x in r.sources) && (x in r.sources ==> r'.sources[x] == r.sources[x]))
      && (if r.sources[s.src] == [k] then s.src !in r'.sources
          else s.src in r'.sources && Taken(r.sources[s.src], r'.sources[s.src], k))
      && (forall q :: q != s ==>
            (q in r'.arrays <==> q in r.arrays) && (q in r.arrays ==> r'.arrays[q] == r.arrays[q]))
      && (if r.arrays[s].locked > 0 then s in r'.arrays && r'.arrays[s] == r.arrays[s].(needsCleanup := true)
          else if r.arrays[s].items == [k] then s !in r'.arrays
          else
            && s in r'.arrays && Taken(r.arrays[s].items, r'.arrays[s].items, k)
            && r'.arrays[s].locked == 0 && !r'.arrays[s].needsCleanup)
  {
    hide CountsOk, ArraysOk, SourcesOk, Taken, CleanUp, LiveItems;
    ListenerIsIndexed(r, k);
    RetireParts(r, k);
    var s := r.records[k].slot;
    CleanUpExactly(Retire(r, k), s);
    if r.arrays[s].locked == 0 {
      TakenAll(r.arrays[s].items, LiveItems(Retire(r, k), r.arrays[s].items), k);
    }
    RemoveFirstTakes(r.sources[s.src], k);
    TakenAll(r.sources[s.src], RemoveFirst(r.sources[s.src], k), k);
  }

  // ----- the inverse

  lemma {:induction false} LiveButLast(r: Registry, items: seq<Key>, k: Key)
    requires (forall j :: j in items ==> Live(r, j)) && !Live(r, k)
    ensures LiveItems(r, items + [k]) == items
  {
    if items == [] {
      assert [] + [k] == [k] && [k][1..] == [];
    } else {
      LiveButLast(r, items[1..], k);
      assert (items + [k])[1..] == items[1..] + [k];
      assert items == [items[0]] + items[1..];
    }
  }

  lemma {:induction false} RemoveLast(s: seq<Key>, k: Key)
    requires k !in s
    ensures RemoveFirst(s + [k], k) == s
  {
    if s == [] {
      assert [] + [k] == [k];
    } else {
      RemoveLast(s[1..], k);
      assert (s + [k])[1..] == s[1..] + [k];
      assert s == [s[0]] + s[1..];
    }
  }

  /** The record just entered is the first match. */
  lemma FindsEntered(r: Registry, r1: Registry, s: Slot, f: Callback, h: Handler, k: Key)
    requires ArraysOk(r) && Entered(r, r1, s, f, h, k) && FirstMatch(r, Items(r, s), f, h) == |Items(r, s)|
    ensures FirstMatch(r1, r1.arrays[s].items, f, h) == |Items(r, s)|
  {
    var items := Items(r, s);
    var all := r1.arrays[s].items;
    assert s in r.arrays ==> ArrayOk(r, s, r.arrays[s]);
    forall j | 0 <= j < |items| ensures !Matches(r1, all[j], f, h) {
      assert all[j] == items[j] && items[j] in items && !Matches(r, items[j], f, h);
    }
    assert all[|items|] == k && Matches(r1, k, f, h);
  }

  lemma SourceReturns(r: Registry, r1: Registry, s: Slot, f: Callback, h: Handler, k: Key)
    requires SourcesOk(r) && Entered(r, r1, s, f, h, k)
    ensures Retire(r1, k).sources == r.sources
  {
    var mine := if s.src in r.sources then r.sources[s.src] else [];
    assert s.src in r.sources ==> SourceOk(r, s.src, r.sources[s.src]);
    RemoveLast(mine, k);
  }

  /** Without its last record an array is as it was before, or, when it was empty, gone. */
  function WithoutEmpty(r: Registry, s: Slot): map<Slot, ListenerArray> {
    if s in r.arrays && r.arrays[s].items == [] then r.arrays - {s} else r.arrays
  }

  lemma ArrayReturns(r: Registry, r1: Registry, s: Slot, f: Callback, h: Handler, k: Key)
    requires ArraysOk(r) && Locked(r, s) == 0 && Entered(r, r1, s, f, h, k) && r1.arrays[s].locked == 0
    requires s.phase in r1.phases && s.phase.typ in r1.types
    ensures var r2 := CleanUp(Retire(r1, k), s);
      r2.arrays == WithoutEmpty(r, s) && r2.records == Retire(r1, k).records
  {
    var items, r' := Items(r, s), Retire(r1, k);
    assert s in r.arrays ==> ArrayOk(r, s, r.arrays[s]);
    LiveButLast(r', items, k);
    assert s in r.arrays ==> r.arrays[s] == ListenerArray(items, 0, false);
  }

  /** The same arrays below the same nodes with the same counts. */
  ghost predicate SameTree(r: Registry, r': Registry) {
    && r'.arrays == r.arrays && r'.types == r.types && r'.phases.Keys == r.phases.Keys
    && forall p :: p in r.phases ==> r'.phases[p].count == r.phases[p].count
  }

  /** No call that has thrown has left an empty array or an empty phase node at this place. */
  predicate NothingEmpty(r: Registry, s: Slot) {
    if s in r.arrays then r.arrays[s].items != [] else s.phase in r.phases ==> r.phases[s.phase].count > 0
  }

  /** The nodes once an array has been made. */
  lemma PreparedNodes(r: Registry, s: Slot)
    requires s !in r.arrays
    ensures var r1 := Prepared(r, s);
      var node := if s.phase in r.phases then r.phases[s.phase] else PhaseNode(0, 0);
      var count := if s.phase.typ in r.types then r.types[s.phase.typ] else 0;
      && r1.arrays == r.arrays[s := ListenerArray([], 0, false)]
      && r1.phases == r.phases[s.phase := PhaseNode(node.count + 1, node.remaining + 1)]
      && r1.types == r.types[s.phase.typ := if s.phase in r.phases then count else count + 1]
      && HasArray(r1, s)
  {
  }

  lemma DropsPhase(r: Registry, s: Slot)
    requires s !in r.arrays
    ensures HasArray(Prepared(r, s), s)
    ensures var r2 := DropArray(Prepared(r, s), s);
      && r2.arrays == r.arrays
      && (s.phase in r2.phases <==> s.phase in r.phases && r.phases[s.phase].count != 0)
      && (forall p :: p != s.phase ==> (p in r2.phases <==> p in r.phases) && (p in r.phases ==> r2.phases[p] == r.phases[p]))
      && (s.phase in r2.phases ==> r2.phases[s.phase].count == r.phases[s.phase].count)
  {
    hide Prepared;
    PreparedNodes(r, s);
  }

  lemma DropsType(r: Registry, s: Slot)
    requires s !in r.arrays && (s.phase in r.phases ==> r.phases[s.phase].count != 0)
    requires s.phase in r.phases ==> s.phase.typ in r.types
    requires s.phase.typ in r.types ==> r.types[s.phase.typ] > 0
    ensures HasArray(Prepared(r, s), s) && DropArray(Prepared(r, s), s).types == r.types
  {
    hide Prepared;
    PreparedNodes(r, s);
  }

  lemma TypesOfCounts(r: Registry, p: Phase)
    requires CountsOk(r)
    ensures p in r.phases ==> p.typ in r.types
    ensures p.typ in r.types ==> r.types[p.typ] > 0
  {
  }

  /** Dropping an array that has just been made gives the nodes back, unless the phase node was
      there without children. */
  lemma DropsPrepared(r: Registry, s: Slot)
    requires CountsOk(r) && s !in r.arrays
    ensures var r1 := Prepared(r, s);
      && HasArray(r1, s)
      && var r2 := DropArray(r1, s);
      && r2.arrays == r.arrays && (SameTree(r, r2) <==> NothingEmpty(r, s))
  {
    hide Prepared, DropArray, CountsOk;
    DropsPhase(r, s);
    TypesOfCounts(r, s.phase);
    PhaseIsCounted(r, s.phase);
    if NothingEmpty(r, s) {
      DropsType(r, s);
      var r2 := DropArray(Prepared(r, s), s);
      assert r2.phases.Keys == r.phases.Keys;
    }
  }

  lemma PhaseIsCounted(r: Registry, p: Phase)
    requires CountsOk(r)
    ensures p in r.phases ==> r.phases[p].count >= 0
  {
  }

  /** Listening for the first time and then unlistening gives listeners, sources and records back,
      up to the retired record, and the tree too if and only if no call that has thrown had left
      an empty array or phase node there: that goes. */
  lemma UnlistenUndoes(r: Registry, s: Slot, f: Callback, h: Handler)
    requires Inv(r) && s.phase.typ != NO_TYPE && s.src != NO_SOURCE && f != NO_LISTENER && Locked(r, s) == 0
    requires FirstMatch(r, Items(r, s), f, h) == |Items(r, s)|
    ensures var r1 := Listen(r, s, f, h).0;
      var (r2, b) := Unlisten(r1, s, f, h);
      && b && r2.listeners == r.listeners && r2.sources == r.sources
      && (forall j :: j in r.records ==> j in r2.records && r2.records[j] == r.records[j])
      && r2.arrays == WithoutEmpty(r, s)
      && (SameTree(r, r2) <==> NothingEmpty(r, s))
  {
    hide Inv, Listen, FirstMatch, CleanUp, Retire, LocksKept, SameTree, NothingEmpty;
    ListenExactly(r, s, f, h);
    ListenKeeps(r, s, f, h);
    var (r1, key) := Listen(r, s, f, h);
    RecordsOfInv(r);
    FindsEntered(r, r1, s, f, h, key.value);
    UnlistenEntered(r, r1, s, f, h, key.value);
    TreeReturns(r, s, f, h, key.value);
  }

  lemma ListenAdds(r: Registry, s: Slot, f: Callback, h: Handler)
    requires s.phase.typ != NO_TYPE && s.src != NO_SOURCE && f != NO_LISTENER
    requires FirstMatch(r, Items(r, s), f, h) == |Items(r, s)|
    ensures Listen(r, s, f, h).0 == AddRecord(Prepared(r, s), s, f, h)
  {
    hide AddRecord;
    SameMatch(r, Prepared(r, s), Items(r, s), f, h, 0);
  }

  lemma DropsNodes(r: Registry, r': Registry, s: Slot)
    requires HasArray(r, s) && r'.types == r.types && r'.phases == r.phases
    ensures DropArray(r', s).types == DropArray(r, s).types && DropArray(r', s).phases == DropArray(r, s).phases
  {
  }

  /** What clean-up does to the nodes. */
  lemma CleanUpNodes(r: Registry, s: Slot)
    requires HasArray(r, s)
    ensures var r' := CleanUp(r, s);
      if s in r'.arrays then r'.types == r.types && r'.phases == r.phases
      else r'.types == DropArray(r, s).types && r'.phases == DropArray(r, s).phases
  {
  }

  /** What the two calls do to the nodes. */
  lemma TreeReturns(r: Registry, s: Slot, f: Callback, h: Handler, k: Key)
    requires CountsOk(r) && s.phase.typ != NO_TYPE && s.src != NO_SOURCE && f != NO_LISTENER
    requires FirstMatch(r, Items(r, s), f, h) == |Items(r, s)|
    requires var r1 := Listen(r, s, f, h).0;
      && k in r1.records && r1.records[k].slot == s && HasArray(r1, s)
      && CleanUp(Retire(r1, k), s).arrays == WithoutEmpty(r, s)
    ensures SameTree(r, CleanUp(Retire(Listen(r, s, f, h).0, k), s)) <==> NothingEmpty(r, s)
  {
    hide FirstMatch, CountsOk, CleanUp, DropArray;
    ListenAdds(r, s, f, h);
    var p := Prepared(r, s);
    var r' := Retire(AddRecord(p, s, f, h), k);
    var r2 := CleanUp(r', s);
    CleanUpNodes(r', s);
    if s !in r.arrays {
      DropsPrepared(r, s);
      DropsNodes(p, r', s);
    } else if r.arrays[s].items == [] {
      assert s in r.arrays && s !in r2.arrays;
    } else {
      EnterKnownPhase(r, s);
      KnownNodes(r, s);
    }
  }

  lemma KnownNodes(r: Registry, s: Slot)
    requires CountsOk(r) && s in r.arrays
    ensures var r' := Prepared(r, s);
      && r'.types == r.types && r'.phases.Keys == r.phases.Keys
      && forall p :: p in r.phases ==> r'.phases[p].count == r.phases[p].count
  {
    assert s in r.arrays.Keys;
  }

  lemma UnlistenEntered(r: Registry, r1: Registry, s: Slot, f: Callback, h: Handler, k: Key)
    requires Inv(r) && Inv(r1) && Locked(r, s) == 0 && Evolves(r, r1) && Entered(r, r1, s, f, h, k)
    requires FirstMatch(r1, r1.arrays[s].items, f, h) == |Items(r, s)|
    ensures var (r2, b) := Unlisten(r1, s, f, h);
      && HasArray(r1, s) && r2 == CleanUp(Retire(r1, k), s)
      && b && r2.listeners == r.listeners && r2.arrays == WithoutEmpty(r, s) && r2.sources == r.sources
      && (forall j :: j in r.records ==> j in r2.records && r2.records[j] == r.records[j])
  {
    hide Inv, FirstMatch, Retire, CleanUp, Evolves, RecordsOk, CountsOk, ArraysOk, SourcesOk;
    RecordsOfInv(r);
    RecordsOfInv(r1);
    Parents(r1, s);
    SameLock(r, r1, s);
    NotListed(r, k);
    var r' := Retire(r1, k);
    RetiredParts(r1, k, s);
    SourceReturns(r, r1, s, f, h, k);
    ArrayReturns(r, r1, s, f, h, k);
    CleanUpParts(r', s);
  }

  lemma NotListed(r: Registry, k: Key)
    requires RecordsOk(r) && k !in r.records
    ensures r.listeners + {k} - {k} == r.listeners
  {
    assert !Live(r, k);
  }

  lemma Parents(r: Registry, s: Slot)
    requires CountsOk(r) && s in r.arrays
    ensures HasArray(r, s)
  {
    assert s in r.arrays.Keys;
  }

  lemma SameLock(r: Registry, r1: Registry, s: Slot)
    requires Evolves(r, r1) && s in r1.arrays
    ensures r1.arrays[s].locked == Locked(r, s)
  {
    assert Locked(r1, s) == Locked(r, s);
  }

  lemma RetiredParts(r: Registry, k: Key, s: Slot)
    requires k in r.records && r.records[k].slot == s && s in r.arrays
    ensures var r' := Retire(r, k);
      && r'.listeners == r.listeners - {k} && s in r'.arrays && r'.phases == r.phases && r'.types == r.types
      && r'.records == r.records[k := r.records[k].(removed := true)]
  {
  }

  lemma CleanUpParts(r: Registry, s: Slot)
    requires s in r.arrays && s.phase in r.phases && s.phase.typ in r.types
    ensures var r' := CleanUp(r, s); r'.listeners == r.listeners && r'.sources == r.sources
  {
  }

  // ----- when unlisten succeeds

  /** `unlisten` is expected to succeed exactly when the callback is listening. */
  ghost predicate UnlistenLaw(r: Registry, s: Slot, f: Callback, h: Handler) {
    Unlisten(r, s, f, h).1 <==>
      exists k :: k in Items(r, s) && Live(r, k) && r.records[k].callback == f && r.records[k].handler == h
  }

  lemma UnlockedIsLawful(r: Registry, s: Slot, f: Callback, h: Handler)
    requires Inv(r) && Locked(r, s) == 0
    ensures UnlistenLaw(r, s, f, h)
  {
    hide Inv, Unlisten;
    RecordsOfInv(r);
    UnlistenExactly(r, s, f, h);
    var items := Items(r, s);
    var i := FirstMatch(r, items, f, h);
    assert s in r.arrays ==> ArrayOk(r, s, r.arrays[s]);
    if i < |items| {
      assert items[i] in items;
    }
  }

  const CLICK: EventType := 1
  const SLOT := Slot(Phase(CLICK, false), 10)

  /** A callback that removes itself and listens again. */
  const RENEWS := Call(Then(DoUnlisten(SLOT, 1, 0), Then(DoListen(SLOT, 1, 0), Done)), false, false, false, false)

  /** The only listener is being called. */
  function Firing(fired: seq<Key>): Registry {
    Registry(1,
      map[1 := Listener(SLOT, 1, 0, false, false)], {1}, map[CLICK := 1], map[SLOT.phase := PhaseNode(1, 0)],
      map[SLOT := ListenerArray([1], 1, false)], map[10 := [1]], fired)
  }

  /** It has removed itself and listened again; its array is locked n times. */
  function Masked(n: nat): Registry {
    Registry(2,
      map[1 := Listener(SLOT, 1, 0, false, true), 2 := Listener(SLOT, 1, 0, false, false)], {2},
      map[CLICK := 1], map[SLOT.phase := PhaseNode(1, 1)],
      map[SLOT := ListenerArray([1, 2], n, true)], map[10 := [2]], [1])
  }

  lemma OneListens()
    ensures Lock(ResetRemaining(Listen(EMPTY, SLOT, 1, 0).0, SLOT.phase), SLOT) == Firing([])
  {
    var r := Listen(EMPTY, SLOT, 1, 0).0;
    assert {} + {1} == {1} && [] + [1] == [1];
    assert r == Firing([]).(
      phases := map[SLOT.phase := PhaseNode(1, 1)], arrays := map[SLOT := ListenerArray([1], 0, false)]);
  }

  /** The listener has removed itself. */
  function Renewing(): Registry {
    Firing([1]).(
      records := map[1 := Listener(SLOT, 1, 0, false, true)], listeners := {},
      arrays := map[SLOT := ListenerArray([1], 1, true)], sources := map[])
  }

  lemma OneUnlistens()
    ensures Unlisten(Firing([1]), SLOT, 1, 0).0 == Renewing()
  {
    assert Firing([1]).listeners - {1} == {};
  }

  lemma OneListensAgain()
    ensures Listen(Renewing(), SLOT, 1, 0).0 == Masked(1)
  {
    assert Matches(Renewing(), 1, 1, 0);
    assert {} + {2} == {2} && [1] + [2] == [1, 2] && [] + [2] == [2];
  }

  /** From the empty registry: one call of listen, and a dispatch that locks the array and calls
      the listener, which renews itself. */
  lemma MaskedReached()
    ensures var r := ResetRemaining(RunAction(EMPTY, DoListen(SLOT, 1, 0)), SLOT.phase);
      var d := Run(Lock(r, SLOT), Next(RENEWS, Quiet), true, false, true, false);
      CallNext(d, d.reg.arrays[SLOT].items[0]).reg == Masked(1)
  {
    hide Listen, Unlisten, Lock, ResetRemaining;
    OneListens();
    assert Fired(Firing([]), 1) == Firing([1]);
    OneUnlistens();
    OneListensAgain();
    assert RunActions(Firing([1]), RENEWS.actions) == RunActions(Renewing(), RENEWS.actions.rest);
    assert RunActions(Masked(1), Done) == Masked(1);
  }

  lemma MaskedIsInv(n: nat)
    requires n > 0
    ensures Inv(Masked(n))
  {
    var r := Masked(n);
    assert r.arrays.Keys == {SLOT};
    assert SlotsOf(r.arrays.Keys, SLOT.phase) == {SLOT};
    assert PhasesOf(r.phases.Keys, CLICK) == {SLOT.phase};
  }

  lemma MaskedIsUnlawful(n: nat)
    requires n > 0
    ensures !UnlistenLaw(Masked(n), SLOT, 1, 0)
  {
    var r := Masked(n);
    var items := r.arrays[SLOT].items;
    assert Matches(r, items[0], 1, 0);
    assert FirstMatch(r, items, 1, 0) == 0;
    assert 2 in items && Live(r, 2) && Matches(r, 2, 1, 0);
  }

  /** A removed record that still stands in a locked array hides a live one behind it: the law
      holds on all registries with a given number of locks if and only if the number is zero. */
  lemma UnlistenLawExactly(n: nat)
    ensures (forall r, s, f, h :: Inv(r) && Locked(r, s) == n ==> UnlistenLaw(r, s, f, h)) <==> n == 0
  {
    hide Inv, UnlistenLaw;
    if n == 0 {
      forall r, s, f, h | Inv(r) && Locked(r, s) == n ensures UnlistenLaw(r, s, f, h) {
        UnlockedIsLawful(r, s, f, h);
      }
    } else {
      MaskedIsInv(n);
      MaskedIsUnlawful(n);
      assert Locked(Masked(n), SLOT) == n;
    }
  }
}
