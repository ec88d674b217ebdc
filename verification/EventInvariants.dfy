/** What every registry operation keeps: the three indexes agree, the counters count, and
    a locked array neither moves nor leaves the tree. */
module EventInvariants {
  import opened EventModel
  import opened Wrappers

  ghost predicate Distinct(s: seq<Key>) {
    forall i, j :: 0 <= i < j < |s| ==> s[i] != s[j]
  }

  // ----- the invariant

  ghost predicate RecordsOk(r: Registry) {
    && (forall k :: k in r.records ==> 0 < k <= r.counter)
    && (forall k :: k in r.listeners <==> Live(r, k))
  }

  function PhasesOf(phases: set<Phase>, t: EventType): set<Phase> {
    set p | p in phases && p.typ == t
  }

  function SlotsOf(slots: set<Slot>, p: Phase): set<Slot> {
    set s | s in slots && s.phase == p
  }

  lemma PhasesOfAdd(phases: set<Phase>, p: Phase, t: EventType)
    ensures |PhasesOf(phases + {p}, t)| == |PhasesOf(phases, t)| + if p.typ == t && p !in phases then 1 else 0
    ensures p in phases && p.typ == t ==> |PhasesOf(phases, t)| > 0
  {
    var before, after := PhasesOf(phases, t), PhasesOf(phases + {p}, t);
    assert after == if p.typ == t && p !in phases then before + {p} else before;
    assert p in phases && p.typ == t ==> p in before;
  }

  lemma SlotsOfAdd(slots: set<Slot>, s: Slot, p: Phase)
    ensures |SlotsOf(slots + {s}, p)| == |SlotsOf(slots, p)| + if s.phase == p && s !in slots then 1 else 0
    ensures s in slots && s.phase == p ==> |SlotsOf(slots, p)| > 0
  {
    var before, after := SlotsOf(slots, p), SlotsOf(slots + {s}, p);
    assert after == if s.phase == p && s !in slots then before + {s} else before;
    assert s in slots && s.phase == p ==> s in before;
  }

  /** Every `count_` is the number of children, no node is without parent, and a type node has a
      child. */
  ghost predicate TreeOk(types: map<EventType, int>, phases: map<Phase, PhaseNode>, slots: set<Slot>) {
    && (forall t :: t in types ==> types[t] == |PhasesOf(phases.Keys, t)| > 0)
    && (forall p :: p in phases ==> phases[p].count == |SlotsOf(slots, p)|)
    && (forall p :: p in phases ==> p.typ in types)
    && (forall s :: s in slots ==> s.phase in phases)
  }

  ghost predicate CountsOk(r: Registry) {
    TreeOk(r.types, r.phases, r.arrays.Keys)
  }

  ghost predicate ArrayCore(r: Registry, s: Slot, a: ListenerArray) {
    && Distinct(a.items)
    && (forall k :: k in a.items ==> k in r.records && r.records[k].slot == s)
    && (!a.needsCleanup ==> forall k :: k in a.items ==> Live(r, k))
  }

  /** An array holds its own records once each, and removed ones only while it is locked. */
  ghost predicate ArrayOk(r: Registry, s: Slot, a: ListenerArray) {
    ArrayCore(r, s, a) && (a.needsCleanup ==> a.locked > 0)
  }

  ghost predicate ArraysOk(r: Registry) {
    forall s :: s in r.arrays ==> ArrayOk(r, s, r.arrays[s])
  }

  ghost predicate Indexed(r: Registry, k: Key)
    requires k in r.records
  {
    var s := r.records[k].slot;
    && s in r.arrays && k in r.arrays[s].items
    && s.src in r.sources && k in r.sources[s.src]
  }

  ghost predicate IndexesOk(r: Registry) {
    forall k :: Live(r, k) ==> Indexed(r, k)
  }

  ghost predicate SourceOk(r: Registry, x: Source, keys: seq<Key>) {
    keys != [] && Distinct(keys) && forall k :: k in keys ==> Live(r, k) && r.records[k].slot.src == x
  }

  ghost predicate SourcesOk(r: Registry) {
    forall x :: x in r.sources ==> SourceOk(r, x, r.sources[x])
  }

  ghost predicate Inv(r: Registry) {
    RecordsOk(r) && CountsOk(r) && ArraysOk(r) && IndexesOk(r) && SourcesOk(r)
  }

  // ----- how a registry may change while arrays are locked

  function Locked(r: Registry, s: Slot): nat {
    if s in r.arrays then r.arrays[s].locked else 0
  }

  /** The same record, perhaps marked removed or call-once in between; marks stay. */
  predicate SameRecord(a: Listener, b: Listener) {
    && b == a.(callOnce := b.callOnce, removed := b.removed)
    && (a.removed ==> b.removed) && (a.callOnce ==> b.callOnce)
  }

  ghost predicate RecordsGrow(r: Registry, r': Registry) {
    && r.counter <= r'.counter
    && forall k :: k in r.records ==> k in r'.records && SameRecord(r.records[k], r'.records[k])
  }

  /** Locks are balanced, and a locked array stays in the tree and only grows at its end. */
  ghost predicate LocksKept(r: Registry, r': Registry) {
    && (forall s :: Locked(r, s) == Locked(r', s))
    && (forall s :: Locked(r, s) > 0 ==> r.arrays[s].items <= r'.arrays[s].items)
  }

  ghost predicate Evolves(r: Registry, r': Registry) {
    RecordsGrow(r, r') && LocksKept(r, r') && r.fired <= r'.fired
  }

  lemma EvolvesReflexive(r: Registry)
    ensures Evolves(r, r)
  {
  }

  lemma EvolvesTransitive(a: Registry, b: Registry, c: Registry)
    requires Evolves(a, b) && Evolves(b, c)
    ensures Evolves(a, c)
  {
    forall s | Locked(a, s) > 0 ensures a.arrays[s].items <= c.arrays[s].items {
      assert Locked(b, s) > 0;
    }
    forall k | k in a.records ensures k in c.records && SameRecord(a.records[k], c.records[k]) {
      assert k in b.records;
    }
  }

  // ----- listen

  lemma AddRecordCounts(r: Registry, s: Slot, f: Callback, h: Handler)
    requires CountsOk(r) && s in r.arrays
    ensures CountsOk(AddRecord(r, s, f, h))
  {
    var r' := AddRecord(r, s, f, h);
    assert r'.arrays.Keys == r.arrays.Keys;
  }

  lemma AddRecordArrays(r: Registry, s: Slot, f: Callback, h: Handler)
    requires RecordsOk(r) && ArraysOk(r) && s in r.arrays
    ensures ArraysOk(AddRecord(r, s, f, h))
  {
    hide CountsOk, IndexesOk, SourcesOk, ArrayOk;
    var r' := AddRecord(r, s, f, h);
    AddRecordArray(r, s, f, h);
    forall s' | s' in r'.arrays && s' != s ensures ArrayOk(r', s', r'.arrays[s']) {
      OtherArray(r, s, f, h, s');
    }
  }

  lemma AddRecordArray(r: Registry, s: Slot, f: Callback, h: Handler)
    requires RecordsOk(r) && s in r.arrays && ArrayOk(r, s, r.arrays[s])
    ensures var r' := AddRecord(r, s, f, h); ArrayOk(r', s, r'.arrays[s])
  {
    hide Distinct;
    var items, k := r.arrays[s].items, r.counter + 1;
    assert forall k' :: k' in items ==> k' in r.records && k' != k;
    DistinctMore(items, k);
  }

  lemma DistinctMore(items: seq<Key>, k: Key)
    requires Distinct(items) && k !in items
    ensures Distinct(items + [k])
  {
  }

  lemma OtherArray(r: Registry, s: Slot, f: Callback, h: Handler, s': Slot)
    requires RecordsOk(r) && s in r.arrays && s' in r.arrays && s' != s && ArrayOk(r, s', r.arrays[s'])
    ensures var r' := AddRecord(r, s, f, h); ArrayOk(r', s', r'.arrays[s'])
  {
    assert forall k :: k in r.arrays[s'].items ==> k in r.records;
  }

  lemma AddRecordIndexes(r: Registry, s: Slot, f: Callback, h: Handler)
    requires s in r.arrays && RecordsOk(r) && IndexesOk(r)
    ensures var r' := AddRecord(r, s, f, h); RecordsOk(r') && IndexesOk(r')
  {
    var k := r.counter + 1;
    var r' := AddRecord(r, s, f, h);
    assert forall k' :: Live(r', k') <==> Live(r, k') || k' == k;
    forall k' | Live(r', k') ensures Indexed(r', k') {
      assert k' != k ==> Indexed(r, k');
    }
  }

  lemma AddRecordSources(r: Registry, s: Slot, f: Callback, h: Handler)
    requires s in r.arrays && RecordsOk(r) && SourcesOk(r)
    ensures SourcesOk(AddRecord(r, s, f, h))
  {
    var r' := AddRecord(r, s, f, h);
    forall x | x in r'.sources ensures SourceOk(r', x, r'.sources[x]) {
      assert x in r.sources ==> SourceOk(r, x, r.sources[x]);
      assert x in r.sources ==> r.counter + 1 !in r.sources[x];
    }
  }

  lemma AddRecordEvolves(r: Registry, s: Slot, f: Callback, h: Handler)
    requires RecordsOk(r) && s in r.arrays
    ensures Evolves(r, AddRecord(r, s, f, h))
  {
    assert forall k :: k in r.records ==> k != r.counter + 1;
  }

  lemma AddRecordKeeps(r: Registry, s: Slot, f: Callback, h: Handler)
    requires Inv(r) && s in r.arrays
    ensures var r' := AddRecord(r, s, f, h); Inv(r') && Evolves(r, r')
  {
    hide CountsOk, RecordsOk, IndexesOk, SourcesOk, ArraysOk, Evolves, AddRecord;
    AddRecordCounts(r, s, f, h);
    AddRecordArrays(r, s, f, h);
    AddRecordIndexes(r, s, f, h);
    AddRecordSources(r, s, f, h);
    AddRecordEvolves(r, s, f, h);
  }

  lemma PreparedPhaseCount(r: Registry, s: Slot, q: Phase)
    requires q in r.phases ==> r.phases[q].count == |SlotsOf(r.arrays.Keys, q)|
    requires q !in r.phases ==> SlotsOf(r.arrays.Keys, q) == {}
    requires q in Prepared(r, s).phases
    ensures var r' := Prepared(r, s); r'.phases[q].count == |SlotsOf(r'.arrays.Keys, q)|
  {
    var r' := Prepared(r, s);
    assert r'.arrays.Keys == r.arrays.Keys + {s};
    SlotsOfAdd(r.arrays.Keys, s, q);
  }

  lemma NodesTypeCount(r: Registry, p: Phase, t: EventType)
    requires t in r.types ==> r.types[t] == |PhasesOf(r.phases.Keys, t)| > 0
    requires t !in r.types ==> PhasesOf(r.phases.Keys, t) == {}
    requires t in EnterNodes(r, p).types
    ensures var r' := EnterNodes(r, p); r'.types[t] == |PhasesOf(r'.phases.Keys, t)| > 0
  {
    assert EnterNodes(r, p).phases.Keys == r.phases.Keys + {p};
    PhasesOfAdd(r.phases.Keys, p, t);
  }

  lemma NodesCounts(r: Registry, p: Phase)
    requires CountsOk(r)
    ensures CountsOk(EnterNodes(r, p))
  {
    var r' := EnterNodes(r, p);
    forall q | q in r'.phases ensures r'.phases[q].count == |SlotsOf(r'.arrays.Keys, q)| {
      assert q !in r.phases ==> SlotsOf(r.arrays.Keys, q) == {};
    }
    forall t | t in r'.types ensures r'.types[t] == |PhasesOf(r'.phases.Keys, t)| > 0 {
      assert t !in r.types ==> PhasesOf(r.phases.Keys, t) == {};
      NodesTypeCount(r, p, t);
    }
  }

  lemma LiveStays(r: Registry, r': Registry)
    requires RecordsOk(r) && IndexesOk(r) && SourcesOk(r) && r' == r.(types := r'.types, phases := r'.phases)
    ensures RecordsOk(r') && IndexesOk(r') && SourcesOk(r')
  {
    assert forall k :: Live(r', k) <==> Live(r, k);
    forall k | Live(r', k) ensures Indexed(r', k) {
      assert Indexed(r, k);
    }
    forall x | x in r'.sources ensures SourceOk(r', x, r'.sources[x]) {
      assert SourceOk(r, x, r.sources[x]);
    }
  }

  lemma ArraysStay(r: Registry, r': Registry)
    requires ArraysOk(r) && r' == r.(types := r'.types, phases := r'.phases)
    ensures ArraysOk(r') && Evolves(r, r')
  {
    forall s | s in r'.arrays ensures ArrayOk(r', s, r'.arrays[s]) {
      assert ArrayOk(r, s, r.arrays[s]);
    }
  }

  /** New nodes leave the rest as it is. */
  lemma NodesKeep(r: Registry, p: Phase)
    requires Inv(r)
    ensures Inv(EnterNodes(r, p)) && Evolves(r, EnterNodes(r, p))
  {
    hide RecordsOk, CountsOk, ArraysOk, IndexesOk, SourcesOk, Evolves;
    NodesCounts(r, p);
    LiveStays(r, EnterNodes(r, p));
    ArraysStay(r, EnterNodes(r, p));
  }

  lemma PreparedCounts(r: Registry, s: Slot)
    requires CountsOk(r)
    ensures CountsOk(Prepared(r, s))
  {
    hide CountsOk, Prepared, EnterNodes, SlotsOf, PhasesOf;
    NodesCounts(r, s.phase);
    NodesOfPrepared(r, s);
    var r' := Prepared(r, s);
    forall q | q in r'.phases ensures r'.phases[q].count == |SlotsOf(r'.arrays.Keys, q)| {
      NoSlotsWithoutPhase(r, q);
      PreparedPhaseCount(r, s, q);
    }
    OneMoreSlot(EnterNodes(r, s.phase), r', s);
  }

  lemma OneMoreSlot(r: Registry, r': Registry, s: Slot)
    requires CountsOk(r) && r'.phases.Keys == r.phases.Keys && r'.types == r.types
    requires r'.arrays.Keys == r.arrays.Keys + {s} && s.phase in r.phases
    requires forall q :: q in r'.phases ==> r'.phases[q].count == |SlotsOf(r'.arrays.Keys, q)|
    ensures CountsOk(r')
  {
    hide SlotsOf, PhasesOf;
  }

  lemma NodesOfPrepared(r: Registry, s: Slot)
    ensures var r', r1 := Prepared(r, s), EnterNodes(r, s.phase);
      r'.phases.Keys == r1.phases.Keys && r'.types == r1.types && r'.arrays.Keys == r1.arrays.Keys + {s}
    ensures s.phase in EnterNodes(r, s.phase).phases
  {
  }

  lemma NoSlotsWithoutPhase(r: Registry, q: Phase)
    requires CountsOk(r)
    ensures q in r.phases ==> r.phases[q].count == |SlotsOf(r.arrays.Keys, q)|
    ensures q !in r.phases ==> SlotsOf(r.arrays.Keys, q) == {}
  {
  }

  lemma PreparedIndexes(r: Registry, s: Slot)
    requires RecordsOk(r) && IndexesOk(r) && SourcesOk(r)
    ensures var r' := Prepared(r, s); RecordsOk(r') && IndexesOk(r') && SourcesOk(r')
  {
    var r' := Prepared(r, s);
    assert forall k :: Live(r, k) <==> Live(r', k);
    forall k | Live(r', k) ensures Indexed(r', k) {
      assert Indexed(r, k);
    }
    forall x | x in r'.sources ensures SourceOk(r', x, r'.sources[x]) {
      assert SourceOk(r, x, r.sources[x]);
    }
  }

  lemma PreparedEvolves(r: Registry, s: Slot)
    ensures Evolves(r, Prepared(r, s))
  {
  }

  lemma PreparedArrays(r: Registry, s: Slot)
    requires ArraysOk(r)
    ensures ArraysOk(Prepared(r, s))
  {
    var r' := Prepared(r, s);
    forall s' | s' in r'.arrays && s' in r.arrays ensures ArrayOk(r', s', r'.arrays[s']) {
      assert ArrayOk(r, s', r.arrays[s']);
    }
  }

  /** The invariant holds with a new, empty array too. */
  lemma PreparedKeeps(r: Registry, s: Slot)
    requires Inv(r)
    ensures Inv(Prepared(r, s)) && Evolves(r, Prepared(r, s))
  {
    PreparedCounts(r, s);
    PreparedIndexes(r, s);
    PreparedEvolves(r, s);
    PreparedArrays(r, s);
  }

  /** `listen` keeps the invariant and disturbs no locked array, also when it throws. */
  lemma ListenKeeps(r: Registry, s: Slot, f: Callback, h: Handler)
    requires Inv(r)
    ensures var r' := Listen(r, s, f, h).0; Inv(r') && Evolves(r, r')
  {
    hide Inv, Evolves, AddRecord, Prepared, EnterNodes;
    EvolvesReflexive(r);
    NodesKeep(r, s.phase);
    if s.phase.typ != NO_TYPE {
      var r1 := Prepared(r, s);
      PreparedKeeps(r, s);
      AddRecordKeeps(r1, s, f, h);
      EvolvesTransitive(r, r1, AddRecord(r1, s, f, h));
    }
  }

  // ----- cleanUp_

  /** A registry in which the array at s may still have to be compacted. */
  ghost predicate Pending(r: Registry, s: Slot) {
    && RecordsOk(r) && CountsOk(r) && IndexesOk(r) && SourcesOk(r) && s in r.arrays
    && (forall s' :: s' in r.arrays ==> ArrayCore(r, s', r.arrays[s']))
    && (forall s' :: s' in r.arrays && s' != s && r.arrays[s'].needsCleanup ==> r.arrays[s'].locked > 0)
  }

  lemma {:induction false} LiveItemsMembers(r: Registry, items: seq<Key>)
    ensures forall k :: k in LiveItems(r, items) <==> k in items && Live(r, k)
    ensures Distinct(items) ==> Distinct(LiveItems(r, items))
    ensures |LiveItems(r, items)| <= |items|
  {
    if items != [] {
      LiveItemsMembers(r, items[1..]);
      assert items == [items[0]] + items[1..];
    }
  }

  lemma DropArrayPhases(r: Registry, s: Slot)
    requires CountsOk(r) && s in r.arrays
    ensures var r' := DropArray(r, s);
      && (forall q :: q in r'.phases ==> r'.phases[q].count == |SlotsOf(r'.arrays.Keys, q)|)
      && (forall s' :: s' in r'.arrays ==> s'.phase in r'.phases)
  {
    var r' := DropArray(r, s);
    forall q | q in r'.phases ensures r'.phases[q].count == |SlotsOf(r'.arrays.Keys, q)| {
      OneSlotLess(r, s, q);
    }
    forall s' | s' in r'.arrays ensures s'.phase in r'.phases {
      ParentStays(r, s, s');
    }
  }

  lemma ParentStays(r: Registry, s: Slot, s': Slot)
    requires CountsOk(r) && s in r.arrays && s' in DropArray(r, s).arrays
    ensures s'.phase in DropArray(r, s).phases
  {
    assert s' in r.arrays.Keys;
    OneSlotLess(r, s, s'.phase);
    SlotsOfAdd(DropArray(r, s).arrays.Keys, s', s'.phase);
  }

  lemma OneSlotLess(r: Registry, s: Slot, q: Phase)
    requires CountsOk(r) && s in r.arrays && q in r.phases
    ensures |SlotsOf(DropArray(r, s).arrays.Keys, q)| == r.phases[q].count - if q == s.phase then 1 else 0
  {
    var slots := DropArray(r, s).arrays.Keys;
    assert r.arrays.Keys == slots + {s};
    SlotsOfAdd(slots, s, q);
  }

  lemma DropArrayTypes(r: Registry, s: Slot)
    requires CountsOk(r) && s in r.arrays
    ensures var r' := DropArray(r, s);
      && (forall t :: t in r'.types ==> r'.types[t] == |PhasesOf(r'.phases.Keys, t)| > 0)
      && (forall q :: q in r'.phases ==> q.typ in r'.types)
  {
    var r' := DropArray(r, s);
    if s.phase in r'.phases {
      assert r.phases.Keys == r'.phases.Keys;
    } else {
      assert r.phases.Keys == r'.phases.Keys + {s.phase};
    }
    forall t | t in r.types
      ensures |PhasesOf(r'.phases.Keys, t)| == r.types[t] - if s.phase !in r'.phases && t == s.phase.typ then 1 else 0
    {
      PhasesOfAdd(r'.phases.Keys, s.phase, t);
    }
    forall q | q in r'.phases ensures q.typ in r'.types {
      PhasesOfAdd(r'.phases.Keys, q, q.typ);
    }
  }

  lemma CleanUpCounts(r: Registry, s: Slot)
    requires CountsOk(r) && s in r.arrays
    ensures CountsOk(CleanUp(r, s))
  {
    var r' := CleanUp(r, s);
    if s !in r'.arrays {
      DropArrayPhases(r, s);
      DropArrayTypes(r, s);
    } else {
      assert r'.arrays.Keys == r.arrays.Keys;
    }
  }

  lemma CleanUpArray(r: Registry, s: Slot, s': Slot)
    requires HasArray(r, s) && s' in CleanUp(r, s).arrays
    requires s' in r.arrays && ArrayCore(r, s', r.arrays[s'])
    requires s' == s || (r.arrays[s'].needsCleanup ==> r.arrays[s'].locked > 0)
    ensures var r' := CleanUp(r, s); ArrayOk(r', s', r'.arrays[s'])
  {
    LiveItemsMembers(r, r.arrays[s].items);
  }

  lemma CleanUpArrays(r: Registry, s: Slot)
    requires Pending(r, s)
    ensures HasArray(r, s) && ArraysOk(CleanUp(r, s))
  {
    assert HasArray(r, s);
    hide CountsOk, IndexesOk, SourcesOk, RecordsOk, ArrayCore, ArrayOk;
    forall s' | s' in CleanUp(r, s).arrays ensures ArrayOk(CleanUp(r, s), s', CleanUp(r, s).arrays[s']) {
      CleanUpArray(r, s, s');
    }
  }

  /** `cleanUp_` touches the tree only. */
  lemma CleanUpFrame(r: Registry, s: Slot)
    requires HasArray(r, s)
    ensures var r' := CleanUp(r, s); r' == r.(types := r'.types, phases := r'.phases, arrays := r'.arrays)
  {
  }

  lemma CleanUpEvolves(r: Registry, s: Slot)
    requires HasArray(r, s)
    ensures Evolves(r, CleanUp(r, s))
  {
  }

  lemma CleanUpIndexes(r: Registry, s: Slot)
    requires RecordsOk(r) && IndexesOk(r) && SourcesOk(r) && HasArray(r, s)
    ensures var r' := CleanUp(r, s); RecordsOk(r') && IndexesOk(r') && SourcesOk(r')
  {
    var r' := CleanUp(r, s);
    LiveItemsMembers(r, r.arrays[s].items);
    forall k | Live(r', k) ensures Indexed(r', k) {
      assert Live(r, k) && Indexed(r, k);
    }
    forall x | x in r'.sources ensures SourceOk(r', x, r'.sources[x]) {
      assert SourceOk(r, x, r.sources[x]);
    }
  }

  /** Compacting keeps the live records, and drops exactly the nodes that become empty. */
  lemma CleanUpKeeps(r: Registry, s: Slot)
    requires Pending(r, s)
    ensures var r' := CleanUp(r, s); Inv(r') && Evolves(r, r')
  {
    CleanUpCounts(r, s);
    CleanUpArrays(r, s);
    CleanUpIndexes(r, s);
    CleanUpEvolves(r, s);
  }

  // ----- unlisten

  lemma {:induction false} RemoveFirstMembers(s: seq<Key>, k: Key)
    requires Distinct(s)
    ensures Distinct(RemoveFirst(s, k))
    ensures forall k' :: k' in RemoveFirst(s, k) <==> k' in s && k' != k
  {
    if s != [] {
      RemoveFirstMembers(s[1..], k);
      assert s[0] !in s[1..];
      assert forall k' :: k' in s <==> k' == s[0] || k' in s[1..];
    }
  }

  /** A listener is where the indexes say it is. */
  lemma ListenerIsIndexed(r: Registry, k: Key)
    requires Inv(r) && k in r.listeners
    ensures Live(r, k) && Indexed(r, k) && HasArray(r, r.records[k].slot)
  {
    hide ArraysOk, SourcesOk;
  }

  lemma RetireSources(r: Registry, k: Key)
    requires Inv(r) && k in r.listeners
    ensures SourcesOk(Retire(r, k))
  {
    hide CountsOk, ArraysOk, IndexesOk, Distinct;
    var x := r.records[k].slot.src;
    ListenerIsIndexed(r, k);
    assert SourceOk(r, x, r.sources[x]);
    RemoveFirstMembers(r.sources[x], k);
    var r' := Retire(r, k);
    forall y | y in r'.sources ensures SourceOk(r', y, r'.sources[y]) {
      assert SourceOk(r, y, r.sources[y]);
    }
  }

  lemma RetireIndexes(r: Registry, k: Key)
    requires Inv(r) && k in r.listeners
    ensures RecordsOk(Retire(r, k)) && IndexesOk(Retire(r, k))
  {
    hide CountsOk, ArraysOk, SourcesOk;
    RetireSource(r, k);
    var r' := Retire(r, k);
    forall k' | Live(r', k') ensures Indexed(r', k') {
      assert Live(r, k') && Indexed(r, k');
    }
  }

  /** The other records of the source stay listed. */
  lemma RetireSource(r: Registry, k: Key)
    requires Inv(r) && k in r.listeners
    ensures k in r.records && r.records[k].slot in r.arrays && r.records[k].slot.src in r.sources
    ensures forall k' :: k' in RemoveFirst(r.sources[r.records[k].slot.src], k) <==>
      k' in r.sources[r.records[k].slot.src] && k' != k
  {
    var x := r.records[k].slot.src;
    ListenerIsIndexed(r, k);
    assert SourceOk(r, x, r.sources[x]);
    RemoveFirstMembers(r.sources[x], k);
  }

  lemma RetireArray(r: Registry, k: Key, s: Slot)
    requires k in r.records && r.records[k].slot in r.arrays
    requires s in r.arrays && ArrayOk(r, s, r.arrays[s])
    ensures var r' := Retire(r, k);
      && s in r'.arrays && ArrayCore(r', s, r'.arrays[s])
      && (s != r.records[k].slot && r'.arrays[s].needsCleanup ==> r'.arrays[s].locked > 0)
  {
  }

  lemma RetireArrays(r: Registry, k: Key)
    requires k in r.records && r.records[k].slot in r.arrays && ArraysOk(r)
    ensures var r' := Retire(r, k);
      && (forall s :: s in r'.arrays ==> ArrayCore(r', s, r'.arrays[s]))
      && (forall s :: s in r'.arrays && s != r.records[k].slot && r'.arrays[s].needsCleanup ==> r'.arrays[s].locked > 0)
  {
    hide ArrayCore, ArrayOk;
    forall s | s in Retire(r, k).arrays
      ensures ArrayCore(Retire(r, k), s, Retire(r, k).arrays[s])
      ensures s != r.records[k].slot && Retire(r, k).arrays[s].needsCleanup ==> Retire(r, k).arrays[s].locked > 0
    {
      RetireArray(r, k, s);
    }
  }

  lemma RetireEvolves(r: Registry, k: Key)
    requires Live(r, k) && r.records[k].slot in r.arrays
    ensures Evolves(r, Retire(r, k))
  {
  }

  lemma RetireCounts(r: Registry, k: Key)
    requires CountsOk(r) && k in r.records && r.records[k].slot in r.arrays
    ensures var r' := Retire(r, k);
      CountsOk(r') && HasArray(r', r.records[k].slot) && r'.listeners == r.listeners - {k}
  {
    assert Retire(r, k).arrays.Keys == r.arrays.Keys;
  }

  lemma RetirePending(r: Registry, k: Key)
    requires Inv(r) && k in r.listeners
    ensures Pending(Retire(r, k), r.records[k].slot) && Evolves(r, Retire(r, k))
    ensures HasArray(Retire(r, k), r.records[k].slot) && Retire(r, k).listeners == r.listeners - {k}
  {
    hide IndexesOk, SourcesOk, ArraysOk, ArrayCore, CountsOk, RecordsOk, Evolves, Retire;
    ListenerIsIndexed(r, k);
    RetireCounts(r, k);
    RetireSources(r, k);
    RetireIndexes(r, k);
    RetireArrays(r, k);
    RetireEvolves(r, k);
  }

  /** `unlistenByKey` keeps the invariant, and removes exactly the record asked for. */
  lemma UnlistenByKeyKeeps(r: Registry, k: Key)
    requires Inv(r)
    ensures var (r', b) := UnlistenByKey(r, k);
      Inv(r') && Evolves(r, r') && b == (k in r.listeners) && r'.listeners == r.listeners - {k}
  {
    if k in r.listeners {
      ListenerIsIndexed(r, k);
      RetirePending(r, k);
      hide CountsOk, ArraysOk, SourcesOk, IndexesOk, RecordsOk, Evolves, Pending, Retire, CleanUp;
      var r1 := Retire(r, k);
      CleanUpFrame(r1, r.records[k].slot);
      CleanUpKeeps(r1, r.records[k].slot);
      EvolvesTransitive(r, r1, CleanUp(r1, r.records[k].slot));
    } else {
      hide CountsOk, ArraysOk, SourcesOk, IndexesOk;
    }
  }

  lemma UnlistenKeeps(r: Registry, s: Slot, f: Callback, h: Handler)
    requires Inv(r)
    ensures var r' := Unlisten(r, s, f, h).0; Inv(r') && Evolves(r, r')
  {
    if s in r.arrays {
      var items := r.arrays[s].items;
      var i := FirstMatch(r, items, f, h);
      if i < |items| {
        UnlistenByKeyKeeps(r, items[i]);
      }
    }
  }

  /** `unlisten` removes the first record with this callback and handler when that record is
      live. A removed one that waits in a locked array hides any later live match: then the
      call reports false and removes nothing. */
  lemma UnlistenExactly(r: Registry, s: Slot, f: Callback, h: Handler)
    requires Inv(r)
    ensures var (r', b) := Unlisten(r, s, f, h);
      var items := if s in r.arrays then r.arrays[s].items else [];
      var i := FirstMatch(r, items, f, h);
      if i < |items| && Live(r, items[i]) then b && r'.listeners == r.listeners - {items[i]}
      else !b && r' == r
  {
    if s in r.arrays {
      var items := r.arrays[s].items;
      var i := FirstMatch(r, items, f, h);
      if i < |items| {
        UnlistenByKeyKeeps(r, items[i]);
      }
    }
  }

  lemma MarkOnceKeeps(r: Registry, k: Key)
    requires Inv(r) && k in r.records
    ensures var r' := r.(records := r.records[k := r.records[k].(callOnce := true)]); Inv(r') && Evolves(r, r')
  {
    hide TreeOk;
    var r' := r.(records := r.records[k := r.records[k].(callOnce := true)]);
    assert forall k' :: Live(r', k') <==> Live(r, k');
    forall k' | Live(r', k') ensures Indexed(r', k') {
      assert Indexed(r, k');
    }
    forall s | s in r'.arrays ensures ArrayOk(r', s, r'.arrays[s]) {
      assert ArrayOk(r, s, r.arrays[s]);
    }
    forall x | x in r'.sources ensures SourceOk(r', x, r'.sources[x]) {
      assert SourceOk(r, x, r.sources[x]);
    }
  }

  lemma ListenOnceKeeps(r: Registry, s: Slot, f: Callback, h: Handler)
    requires Inv(r)
    ensures var r' := ListenOnce(r, s, f, h).0; Inv(r') && Evolves(r, r')
  {
    hide Inv, Evolves, Listen;
    ListenKeeps(r, s, f, h);
    var (r1, k) := Listen(r, s, f, h);
    if k.Some? && k.value in r1.records {
      MarkOnceKeeps(r1, k.value);
      EvolvesTransitive(r, r1, ListenOnce(r, s, f, h).0);
    }
  }

  function Chosen(r: Registry, keys: seq<Key>, t: Option<EventType>, c: Option<bool>): set<Key> {
    set k | k in keys && Selected(r, k, t, c)
  }

  lemma ChosenStep(r: Registry, rest: seq<Key>, k: Key, t: Option<EventType>, c: Option<bool>)
    requires Distinct(rest + [k])
    ensures Chosen(r, rest + [k], t, c) ==
      if Selected(r, k, t, c) then Chosen(r, rest, t, c) + {k} else Chosen(r, rest, t, c)
    ensures k !in Chosen(r, rest, t, c) && k !in rest && Distinct(rest)
  {
    var keys := rest + [k];
    assert keys[..|rest|] == rest && keys[|rest|] == k;
    assert forall i :: 0 <= i < |rest| ==> keys[i] == rest[i];
  }

  lemma SelectedStays(r: Registry, r': Registry, k: Key, t: Option<EventType>, c: Option<bool>)
    requires Evolves(r, r') && k in r.records
    ensures k in r'.records && (Selected(r, k, t, c) <==> Selected(r', k, t, c))
  {
    assert SameRecord(r.records[k], r'.records[k]);
  }

  /** What `RemoveDown` is to achieve. */
  ghost predicate Removed(r0: Registry, r: Registry, gone: set<Key>, d: nat, r': Registry, n: nat) {
    Inv(r') && Evolves(r0, r') && r'.listeners == r.listeners - gone && n == d + |gone|
  }

  lemma RemovedStep(r0: Registry, r: Registry, k: Key, gone: set<Key>, d: nat, r': Registry, n: nat)
    requires Removed(r0, UnlistenByKey(r, k).0, gone, d + 1, r', n)
    requires UnlistenByKey(r, k).0.listeners == r.listeners - {k} && k !in gone
    ensures Removed(r0, r, gone + {k}, d, r', n)
  {
    hide Inv, Evolves, UnlistenByKey;
  }

  lemma RemoveDownUnfold(r: Registry, rest: seq<Key>, k: Key, t: Option<EventType>, c: Option<bool>, d: nat)
    ensures RemoveDown(r, rest + [k], t, c, d) ==
      if Selected(r, k, t, c) then RemoveDown(UnlistenByKey(r, k).0, rest, t, c, d + 1)
      else RemoveDown(r, rest, t, c, d)
  {
    var keys := rest + [k];
    assert keys[..|keys| - 1] == rest;
  }

  lemma {:induction false} RemoveDownKeeps(
    r0: Registry, r: Registry, keys: seq<Key>, t: Option<EventType>, c: Option<bool>, d: nat)
    requires Inv(r) && Evolves(r0, r) && Distinct(keys)
    requires forall k :: k in keys ==> k in r.listeners && k in r0.records
    ensures var (r', n) := RemoveDown(r, keys, t, c, d); Removed(r0, r, Chosen(r0, keys, t, c), d, r', n)
    decreases |keys|
  {
    hide Inv, Evolves, UnlistenByKey, Selected;
    if keys == [] {
      assert Chosen(r0, keys, t, c) == {};
    } else {
      hide Removed;
      var k, rest := keys[|keys| - 1], keys[..|keys| - 1];
      assert keys == rest + [k];
      ChosenStep(r0, rest, k, t, c);
      SelectedStays(r0, r, k, t, c);
      RemoveDownUnfold(r, rest, k, t, c, d);
      hide Chosen, Distinct, RemoveDown;
      if Selected(r, k, t, c) {
        var r1 := UnlistenByKey(r, k).0;
        UnlistenByKeyKeeps(r, k);
        EvolvesTransitive(r0, r, r1);
        RemoveDownKeeps(r0, r1, rest, t, c, d + 1);
        var (r', n) := RemoveDown(r1, rest, t, c, d + 1);
        RemovedStep(r0, r, k, Chosen(r0, rest, t, c), d, r', n);
      } else {
        RemoveDownKeeps(r0, r, rest, t, c, d);
      }
    }
  }

  /** The listeners of a source with the type and the phase, where these are given. */
  function OfSource(r: Registry, x: Source, t: Option<EventType>, c: Option<bool>): set<Key>
    requires r.listeners <= r.records.Keys
  {
    set k | k in r.listeners && (
      var s := r.records[k].slot;
      s.src == x && (t == None || t == Some(s.phase.typ)) && (c == None || c == Some(s.phase.capture)))
  }

  lemma KnownListeners(r: Registry)
    requires Inv(r)
    ensures r.listeners <= r.records.Keys
  {
  }

  /** `removeAll` on a source removes exactly the listeners of that source with the given type
      and phase, and returns their number. */
  lemma RemoveAllExactly(r: Registry, x: Source, t: Option<EventType>, c: Option<bool>)
    requires Inv(r)
    ensures r.listeners <= r.records.Keys
    ensures var (r', n) := RemoveAll(r, x, t, c);
      var gone := OfSource(r, x, t, c);
      Inv(r') && Evolves(r, r') && r'.listeners == r.listeners - gone && n == |gone|
  {
    hide Inv, Evolves, RemoveDown, Selected, Chosen, Distinct;
    KnownListeners(r);
    GoneIsChosen(r, x, t, c);
    EvolvesReflexive(r);
    if x in r.sources {
      RemoveDownKeeps(r, r, r.sources[x], t, c, 0);
    }
  }

  lemma GoneIsChosen(r: Registry, x: Source, t: Option<EventType>, c: Option<bool>)
    requires Inv(r) && r.listeners <= r.records.Keys
    ensures forall k :: k in r.listeners ==> k in r.records
    ensures var gone := OfSource(r, x, t, c);
      if x in r.sources then
        && gone == Chosen(r, r.sources[x], t, c)
        && Distinct(r.sources[x]) && forall k :: k in r.sources[x] ==> k in r.listeners
      else gone == {}
  {
    forall k | k in OfSource(r, x, t, c) ensures x in r.sources && k in r.sources[x] {
      ListenerIsIndexed(r, k);
    }
    if x in r.sources {
      assert SourceOk(r, x, r.sources[x]);
    }
  }
}
