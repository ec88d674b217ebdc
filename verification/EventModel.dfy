/** The listener registry of `goog.events`: its data and the registry operations.

    A listener record is identified by its key, which `Listener.init` draws from a global
    counter; the three indexes of the source (`listeners_`, `listenerTree_`, `sources_`) then
    hold keys, and the shared mutable part of a record (`removed`, `callOnce`) sits in
    `records`, where every index sees the same update. The nested objects of `listenerTree_`
    are held in one map per level, indexed by the path to the node.

    Every operation is a function from registry to registry, so that runs can be reasoned
    about; the class in EventRegistry.dfy performs the same operations in place, with the
    loops of the source, and is proved to compute exactly these functions. */
module EventModel {
  import opened Wrappers

  type Key = nat
  type Source = nat        // goog.getUid of the event source; NO_SOURCE is null or undefined
  type EventType = nat     // identity of the type name; NO_TYPE is a name JavaScript takes for false,
                           // and names of members of Object.prototype are not among the others
  type Callback = nat      // identity of the listener; NO_LISTENER is no function and has no handleEvent
  type Handler = nat       // identity of the scope object

  const NO_TYPE: EventType := 0
  const NO_LISTENER: Callback := 0
  const NO_SOURCE: Source := 0

  /** `listenerTree_[typ][capture]` */
  datatype Phase = Phase(typ: EventType, capture: bool)

  /** `listenerTree_[typ][capture][src]` */
  datatype Slot = Slot(phase: Phase, src: Source)

  datatype Listener = Listener(slot: Slot, callback: Callback, handler: Handler, callOnce: bool, removed: bool)

  datatype ListenerArray = ListenerArray(items: seq<Key>, locked: nat, needsCleanup: bool)

  datatype PhaseNode = PhaseNode(count: int, remaining: int)

  /** The whole mutable state; `fired` logs the key of every callback invocation. */
  datatype Registry = Registry(
    counter: nat,
    records: map<Key, Listener>,
    listeners: set<Key>,
    types: map<EventType, int>,           // count_ of each type node
    phases: map<Phase, PhaseNode>,
    arrays: map<Slot, ListenerArray>,
    sources: map<Source, seq<Key>>,
    fired: seq<Key>)

  const EMPTY := Registry(0, map[], {}, map[], map[], map[], map[], [])

  predicate Live(r: Registry, k: Key) {
    k in r.records && !r.records[k].removed
  }

  // ----- listen

  /** Creates the nodes for the type and the phase where they are missing. */
  function EnterNodes(r: Registry, p: Phase): Registry {
    var count := if p.typ in r.types then r.types[p.typ] else 0;
    r.(types := r.types[p.typ := if p in r.phases then count else count + 1],
       phases := r.phases[p := if p in r.phases then r.phases[p] else PhaseNode(0, 0)])
  }

  /** Then the call is counted in `remaining_`. */
  function EnterPhase(r: Registry, p: Phase): Registry {
    var r1 := EnterNodes(r, p);
    r1.(phases := r1.phases[p := r1.phases[p].(remaining := r1.phases[p].remaining + 1)])
  }

  function AddEmptyArray(r: Registry, s: Slot): Registry
    requires s.phase in r.phases
  {
    var node := r.phases[s.phase];
    r.(phases := r.phases[s.phase := node.(count := node.count + 1)],
       arrays := r.arrays[s := ListenerArray([], 0, false)])
  }

  /** Makes a record with a new key and enters it in the three indexes. */
  function AddRecord(r: Registry, s: Slot, f: Callback, h: Handler): Registry
    requires s in r.arrays
  {
    var k := r.counter + 1;
    var mine := if s.src in r.sources then r.sources[s.src] else [];
    r.(counter := k,
       records := r.records[k := Listener(s, f, h, false, false)],
       listeners := r.listeners + {k},
       arrays := r.arrays[s := r.arrays[s].(items := r.arrays[s].items + [k])],
       sources := r.sources[s.src := mine + [k]])
  }

  predicate Matches(r: Registry, k: Key, f: Callback, h: Handler) {
    k in r.records && r.records[k].callback == f && r.records[k].handler == h
  }

  /** The position of the first record with this callback and handler, removed or not;
      the length when there is none. */
  function FirstMatch(r: Registry, items: seq<Key>, f: Callback, h: Handler, from: nat := 0): (i: nat)
    requires from <= |items|
    ensures from <= i <= |items|
    ensures i < |items| ==>
      items[i] in r.records && r.records[items[i]].callback == f && r.records[items[i]].handler == h
    ensures forall j :: from <= j < i && items[j] in r.records ==>
      r.records[items[j]].callback != f || r.records[items[j]].handler != h
    decreases |items| - from
  {
    if from == |items| || Matches(r, items[from], f, h) then from
    else FirstMatch(r, items, f, h, from + 1)
  }

  /** The nodes and the array of a call of `listen`, and the call counted. */
  function Prepared(r: Registry, s: Slot): (r': Registry)
    ensures s in r'.arrays
  {
    var r1 := EnterPhase(r, s.phase);
    if s in r1.arrays then r1 else AddEmptyArray(r1, s)
  }

  /** `listen` for one type; None is an error: "Invalid event type", before anything is done, a
      source without a uid, when the nodes are there already, or "Invalid listener argument",
      thrown by `Listener.init` when the array is there too. */
  function Listen(r: Registry, s: Slot, f: Callback, h: Handler): (Registry, Option<Key>) {
    if s.phase.typ == NO_TYPE then (r, None)
    else if s.src == NO_SOURCE then (EnterNodes(r, s.phase), None)
    else
      var r1 := Prepared(r, s);
      var items := r1.arrays[s].items;
      var i := FirstMatch(r1, items, f, h);
      if i < |items| && !r1.records[items[i]].removed then (r1, Some(items[i]))
      else if f == NO_LISTENER then (r1, None)
      else (AddRecord(r1, s, f, h), Some(r1.counter + 1))
  }

  function ListenOnce(r: Registry, s: Slot, f: Callback, h: Handler): (Registry, Option<Key>) {
    var (r1, k) := Listen(r, s, f, h);
    if k.Some? && k.value in r1.records then
      (r1.(records := r1.records[k.value := r1.records[k.value].(callOnce := true)]), k)
    else (r1, k)
  }

  // ----- cleanUp_

  function LiveItems(r: Registry, items: seq<Key>): seq<Key> {
    if items == [] then []
    else (if Live(r, items[0]) then [items[0]] else []) + LiveItems(r, items[1..])
  }

  /** Drops an array, and the nodes above it that lose their last child. */
  function DropArray(r: Registry, s: Slot): Registry
    requires s.phase in r.phases && s.phase.typ in r.types
  {
    var node := r.phases[s.phase].(count := r.phases[s.phase].count - 1);
    var count := if node.count == 0 then r.types[s.phase.typ] - 1 else r.types[s.phase.typ];
    r.(arrays := r.arrays - {s},
       phases := if node.count == 0 then r.phases - {s.phase} else r.phases[s.phase := node],
       types := if count == 0 then r.types - {s.phase.typ} else r.types[s.phase.typ := count])
  }

  /** Compacts an unlocked array that has removed records, and drops it when it is empty. */
  function CleanUp(r: Registry, s: Slot): Registry
    requires s in r.arrays && s.phase in r.phases && s.phase.typ in r.types
  {
    var a := r.arrays[s];
    if a.locked == 0 && a.needsCleanup then
      var live := LiveItems(r, a.items);
      if live == [] then DropArray(r, s)
      else r.(arrays := r.arrays[s := ListenerArray(live, 0, false)])
    else r
  }

  /** The tree has an array at this place, with the nodes above it. */
  predicate HasArray(r: Registry, s: Slot) {
    s in r.arrays && s.phase in r.phases && s.phase.typ in r.types
  }

  // ----- unlisten

  /** `goog.array.remove`: drops the first occurrence. */
  function RemoveFirst(s: seq<Key>, k: Key): seq<Key> {
    if s == [] then []
    else if s[0] == k then s[1..]
    else [s[0]] + RemoveFirst(s[1..], k)
  }

  /** Takes a record out of `sources_` and marks it removed in place. */
  function Retire(r: Registry, k: Key): Registry
    requires k in r.records && r.records[k].slot in r.arrays
  {
    var s := r.records[k].slot;
    var rest := if s.src in r.sources then RemoveFirst(r.sources[s.src], k) else [];
    r.(sources := if rest == [] then r.sources - {s.src} else r.sources[s.src := rest],
       records := r.records[k := r.records[k].(removed := true)],
       listeners := r.listeners - {k},
       arrays := r.arrays[s := r.arrays[s].(needsCleanup := true)])
  }

  /** The array lookup cannot fail while the indexes agree, see `EventInvariants.Inv`. */
  function UnlistenByKey(r: Registry, k: Key): (Registry, bool) {
    if k !in r.listeners || !Live(r, k) || !HasArray(r, r.records[k].slot) then (r, false)
    else (CleanUp(Retire(r, k), r.records[k].slot), true)
  }

  /** `unlisten` stops at the first record with this callback and handler, removed or not;
      its test of `capture` is decided by the array searched. */
  function Unlisten(r: Registry, s: Slot, f: Callback, h: Handler): (Registry, bool) {
    if s !in r.arrays then (r, false)
    else
      var items := r.arrays[s].items;
      var i := FirstMatch(r, items, f, h);
      if i < |items| then UnlistenByKey(r, items[i]) else (r, false)
  }

  predicate Selected(r: Registry, k: Key, t: Option<EventType>, c: Option<bool>) {
    && k in r.records
    && (t.None? || r.records[k].slot.phase.typ == t.value)
    && (c.None? || r.records[k].slot.phase.capture == c.value)
  }

  /** `removeAll` on one source walks its records from last to first. */
  function RemoveDown(r: Registry, keys: seq<Key>, t: Option<EventType>, c: Option<bool>, d: nat): (Registry, nat)
    decreases |keys|
  {
    if keys == [] then (r, d)
    else
      var k, rest := keys[|keys| - 1], keys[..|keys| - 1];
      if Selected(r, k, t, c) then RemoveDown(UnlistenByKey(r, k).0, rest, t, c, d + 1)
      else RemoveDown(r, rest, t, c, d)
  }

  function RemoveAll(r: Registry, x: Source, t: Option<EventType>, c: Option<bool>): (Registry, nat) {
    if x in r.sources then RemoveDown(r, r.sources[x], t, c, 0) else (r, 0)
  }
}
