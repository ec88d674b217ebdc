/** Safety of whole runs: every state a run passes through, at any depth of nested dispatch,
    has agreeing indexes, and when the run ends every lock is given back. */
module EventSafety {
  import opened EventModel
  import opened EventInvariants
  import opened EventDispatch

  // ----- every state of a run

  /** The invariant holds before and after every action, and in everything the actions run. */
  ghost predicate ActionsSafe(r: Registry, acts: Actions)
    decreases ActionsSize(acts), 0
  {
    Inv(r) && match acts
    case Done => true
    case Then(a, rest) => ActionSafe(r, a) && ActionsSafe(RunAction(r, a), rest)
  }

  ghost predicate ActionSafe(r: Registry, a: Action)
    decreases ActionSize(a), 0
  {
    Inv(r) && (a.DoDispatch? ==> DispatchSafe(r, a.path, a.typ, a.plan)) && Inv(RunAction(r, a))
  }

  ghost predicate FireSafe(d: Run, s: Slot, i: nat, n: nat)
    decreases PlanSize(d.plan), 1, n - i
  {
    Inv(d.reg) &&
    if i >= n || d.thrown || s !in d.reg.arrays || i >= |d.reg.arrays[s].items| then true
    else
      var k := d.reg.arrays[s].items[i];
      && (Live(d.reg, k) && d.plan.Next? ==> ActionsSafe(Fired(d.reg, k), d.plan.call.actions))
      && FireSafe(if Live(d.reg, k) then CallNext(d, k) else d, s, i + 1, n)
  }

  ghost predicate ListenersSafe(d: Run, s: Slot)
    decreases PlanSize(d.plan), 2
  {
    Inv(d.reg) && (HasArray(d.reg, s) ==>
      var r := Lock(d.reg, s);
      FireSafe(d.(reg := r, ok := true), s, 0, |r.arrays[s].items|))
  }

  ghost predicate WalkSafe(d: Run, p: Phase, order: seq<Source>, h: nat)
    decreases PlanSize(d.plan), 3, |order| - h
  {
    Inv(d.reg) &&
    if d.stopped || d.thrown || h >= |order| || Remaining(d.reg, p) == 0 then true
    else
      var d1 := FireListeners(d, Slot(p, order[h]));
      ListenersSafe(d, Slot(p, order[h])) && WalkSafe(d1.(ok := d.ok && d1.ok && d1.returnValue), p, order, h + 1)
  }

  ghost predicate PhaseSafe(d: Run, p: Phase, order: seq<Source>)
    decreases PlanSize(d.plan), 4
  {
    Inv(d.reg) && (!d.thrown && p in d.reg.phases ==> WalkSafe(d.(reg := ResetRemaining(d.reg, p)), p, order, 0))
  }

  ghost predicate DispatchSafe(r: Registry, path: seq<Source>, t: EventType, plan: Plan)
    decreases PlanSize(plan), 5
  {
    Inv(r) && (t in r.types ==>
      var d0 := Run(r, plan, true, false, true, false);
      var d1 := DispatchPhase(d0, Phase(t, true), Reverse(path), true);
      PhaseSafe(d0, Phase(t, true), Reverse(path)) && PhaseSafe(d1, Phase(t, false), path))
  }

  // ----- locking and logging

  /** The same registry but for counters, locks and the log. */
  ghost predicate SameIndexes(r: Registry, r': Registry) {
    && r'.counter == r.counter && r'.records == r.records && r'.listeners == r.listeners && r'.sources == r.sources
    && r'.arrays.Keys == r.arrays.Keys
    && (forall s :: s in r.arrays ==> r'.arrays[s] == r.arrays[s].(locked := r'.arrays[s].locked))
  }

  lemma SameIndexesKeep(r: Registry, r': Registry)
    requires RecordsOk(r) && IndexesOk(r) && SourcesOk(r) && SameIndexes(r, r')
    ensures RecordsOk(r') && IndexesOk(r') && SourcesOk(r')
  {
    assert forall k :: Live(r', k) <==> Live(r, k);
    forall k | Live(r', k) ensures Indexed(r', k) {
      assert Indexed(r, k);
    }
    forall x | x in r'.sources ensures SourceOk(r', x, r'.sources[x]) {
      assert SourceOk(r, x, r.sources[x]);
    }
  }

  lemma SameIndexesArrays(r: Registry, r': Registry)
    requires ArraysOk(r) && SameIndexes(r, r')
    ensures forall s :: s in r'.arrays ==> ArrayCore(r', s, r'.arrays[s])
    ensures (forall s :: s in r.arrays ==> r'.arrays[s].locked >= r.arrays[s].locked) ==> ArraysOk(r')
  {
    forall s | s in r'.arrays ensures ArrayCore(r', s, r'.arrays[s]) {
      assert ArrayOk(r, s, r.arrays[s]);
    }
  }

  lemma SameIndexesInv(r: Registry, r': Registry)
    requires Inv(r) && SameIndexes(r, r') && CountsOk(r')
    requires forall s :: s in r.arrays ==> r'.arrays[s].locked >= r.arrays[s].locked
    ensures Inv(r')
  {
    hide RecordsOk, IndexesOk, SourcesOk, ArraysOk, TreeOk;
    SameIndexesKeep(r, r');
    SameIndexesArrays(r, r');
  }

  lemma RecountKeeps(r: Registry, r': Registry)
    requires CountsOk(r) && r'.types == r.types && r'.arrays.Keys == r.arrays.Keys && r'.phases.Keys == r.phases.Keys
    requires forall p :: p in r.phases ==> r'.phases[p].count == r.phases[p].count
    ensures CountsOk(r')
  {
  }

  lemma LockKeeps(r: Registry, s: Slot)
    requires Inv(r) && HasArray(r, s)
    ensures Inv(Lock(r, s))
  {
    hide RecordsOk, IndexesOk, SourcesOk, ArraysOk, TreeOk;
    RecountKeeps(r, Lock(r, s));
    SameIndexesInv(r, Lock(r, s));
  }

  lemma ResetKeeps(r: Registry, p: Phase)
    requires Inv(r) && p in r.phases
    ensures Inv(ResetRemaining(r, p)) && Evolves(r, ResetRemaining(r, p))
  {
    hide RecordsOk, IndexesOk, SourcesOk, ArraysOk, TreeOk;
    RecountKeeps(r, ResetRemaining(r, p));
    SameIndexesInv(r, ResetRemaining(r, p));
  }

  lemma FiredKeeps(r: Registry, k: Key)
    requires Inv(r)
    ensures Inv(Fired(r, k)) && Evolves(r, Fired(r, k))
  {
    hide RecordsOk, IndexesOk, SourcesOk, ArraysOk, TreeOk;
    SameIndexesInv(r, Fired(r, k));
  }

  lemma ReleasePending(r: Registry, s: Slot)
    requires Inv(r) && s in r.arrays && r.arrays[s].locked > 0
    ensures Pending(Release(r, s), s) && HasArray(r, s)
  {
    hide RecordsOk, IndexesOk, SourcesOk, ArrayCore;
    var r' := Release(r, s);
    assert r'.arrays.Keys == r.arrays.Keys;
    SameIndexesKeep(r, r');
    SameIndexesArrays(r, r');
  }

  lemma ReleaseEvolves(r: Registry, s: Slot, r2: Registry)
    requires HasArray(r, s) && Evolves(Lock(r, s), r2)
    ensures s in r2.arrays && r2.arrays[s].locked == r.arrays[s].locked + 1
    ensures Evolves(r, Release(r2, s))
  {
    var r1 := Lock(r, s);
    assert Locked(r1, s) == Locked(r2, s);
    var r3 := Release(r2, s);
    forall s' ensures Locked(r, s') == Locked(r3, s') {
      assert Locked(r1, s') == Locked(r2, s');
    }
    forall s' | Locked(r, s') > 0 ensures r.arrays[s'].items <= r3.arrays[s'].items {
      assert Locked(r1, s') > 0 && r1.arrays[s'].items <= r2.arrays[s'].items;
    }
  }

  /** Lock, let the callbacks change the registry, unlock: the locks are as they were before,
      and the array that was locked is still in the tree when it is unlocked. */
  lemma LockedRun(r: Registry, s: Slot, r2: Registry)
    requires Inv(r) && HasArray(r, s) && Inv(r2) && Evolves(Lock(r, s), r2)
    ensures HasArray(r2, s) && r2.arrays[s].locked == r.arrays[s].locked + 1
    ensures Inv(Unlock(r2, s)) && Evolves(r, Unlock(r2, s))
  {
    hide Inv, Evolves, Pending, CleanUp;
    ReleaseEvolves(r, s, r2);
    ReleasePending(r2, s);
    var r3 := Release(r2, s);
    CleanUpKeeps(r3, s);
    EvolvesTransitive(r, r3, CleanUp(r3, s));
  }

  // ----- the theorem, by induction on the run

  lemma {:induction false} ActionsKeep(r: Registry, acts: Actions)
    requires Inv(r)
    ensures ActionsSafe(r, acts) && Inv(RunActions(r, acts)) && Evolves(r, RunActions(r, acts))
    decreases ActionsSize(acts), 0
  {
    hide Inv, Evolves, RunAction, ActionSafe;
    EvolvesReflexive(r);
    if acts.Then? {
      ActionKeeps(r, acts.first);
      var r1 := RunAction(r, acts.first);
      ActionsKeep(r1, acts.rest);
      EvolvesTransitive(r, r1, RunActions(r1, acts.rest));
    }
  }

  lemma {:induction false} ActionKeeps(r: Registry, a: Action)
    requires Inv(r)
    ensures ActionSafe(r, a) && Inv(RunAction(r, a)) && Evolves(r, RunAction(r, a))
    decreases ActionSize(a), 0
  {
    hide Inv, Evolves, Listen, ListenOnce, Unlisten, UnlistenByKey, RemoveAll, Dispatch, DispatchSafe;
    match a
    case DoListen(s, f, h) => ListenKeeps(r, s, f, h);
    case DoListenOnce(s, f, h) => ListenOnceKeeps(r, s, f, h);
    case DoUnlisten(s, f, h) => UnlistenKeeps(r, s, f, h);
    case DoUnlistenByKey(k) => UnlistenByKeyKeeps(r, k);
    case DoRemoveAll(x, t, c) => RemoveAllExactly(r, x, t, c);
    case DoDispatch(path, t, plan) => DispatchKeeps(r, path, t, plan);
  }

  lemma {:induction false} CallKeeps(d: Run, k: Key)
    requires Inv(d.reg)
    ensures d.plan.Next? ==> ActionsSafe(Fired(d.reg, k), d.plan.call.actions)
    ensures Inv(CallNext(d, k).reg) && Evolves(d.reg, CallNext(d, k).reg)
    decreases PlanSize(d.plan), 0
  {
    hide Inv, Evolves, RunActions, ActionsSafe, UnlistenByKey, Fired;
    FiredKeeps(d.reg, k);
    var r := Fired(d.reg, k);
    EvolvesReflexive(r);
    if d.plan.Next? {
      ActionsKeep(r, d.plan.call.actions);
      r := RunActions(r, d.plan.call.actions);
      EvolvesTransitive(d.reg, Fired(d.reg, k), r);
    }
    UnlistenByKeyKeeps(r, k);
    EvolvesTransitive(d.reg, r, UnlistenByKey(r, k).0);
  }

  /** A call-once record whose call has ended without an exception is dead in every later state,
      so it never fires again. */
  lemma OnceIsRetired(d: Run, k: Key, r: Registry)
    requires Inv(d.reg) && k in d.reg.records && d.reg.records[k].callOnce && !NextCall(d.plan).throws
    requires Evolves(CallNext(d, k).reg, r)
    ensures k in r.records && r.records[k].removed
  {
    hide Inv, Evolves, RunActions, UnlistenByKey, Fired, Live;
    var r1 := Fired(d.reg, k);
    FiredKeeps(d.reg, k);
    if d.plan.Next? {
      ActionsKeep(r1, d.plan.call.actions);
      EvolvesTransitive(d.reg, r1, RunActions(r1, d.plan.call.actions));
      r1 := RunActions(r1, d.plan.call.actions);
    }
    MarksStay(d.reg, r1, k);
    UnlistenByKeyKeeps(r1, k);
    UnlistedIsRemoved(UnlistenByKey(r1, k).0, k, r1);
    MarksStay(CallNext(d, k).reg, r, k);
  }

  lemma MarksStay(r: Registry, r': Registry, k: Key)
    requires Evolves(r, r') && k in r.records
    ensures k in r'.records
    ensures r.records[k].callOnce ==> r'.records[k].callOnce
    ensures r.records[k].removed ==> r'.records[k].removed
  {
    assert SameRecord(r.records[k], r'.records[k]);
  }

  lemma UnlistedIsRemoved(r: Registry, k: Key, r0: Registry)
    requires Inv(r) && Evolves(r0, r) && k in r0.records && k !in r.listeners
    ensures k in r.records && r.records[k].removed
  {
    hide CountsOk, ArraysOk, IndexesOk, SourcesOk;
    MarksStay(r0, r, k);
    assert RecordsOk(r);
    assert k !in r.listeners ==> !Live(r, k);
  }

  lemma {:induction false} FireKeeps(d: Run, s: Slot, i: nat, n: nat)
    requires Inv(d.reg)
    ensures FireSafe(d, s, i, n) && Inv(FireFrom(d, s, i, n).reg) && Evolves(d.reg, FireFrom(d, s, i, n).reg)
    decreases PlanSize(d.plan), 1, n - i
  {
    hide Inv, Evolves, CallNext, Live, ActionsSafe;
    EvolvesReflexive(d.reg);
    if !(i >= n || d.thrown || s !in d.reg.arrays || i >= |d.reg.arrays[s].items|) {
      var k := d.reg.arrays[s].items[i];
      var d1 := if Live(d.reg, k) then CallNext(d, k) else d;
      if Live(d.reg, k) {
        CallKeeps(d, k);
      }
      FireKeeps(d1, s, i + 1, n);
      EvolvesTransitive(d.reg, d1.reg, FireFrom(d1, s, i + 1, n).reg);
    }
  }

  /** Whatever the callbacks of any array do, a locked array stays in the tree with its locks,
      and only grows at its end: the positions of a running loop over it stay valid. */
  lemma LockedArrayStays(d: Run, s': Slot, i: nat, n: nat, s: Slot)
    requires Inv(d.reg) && Locked(d.reg, s) > 0
    ensures var r := FireFrom(d, s', i, n).reg;
      && HasArray(r, s) && r.arrays[s].locked == d.reg.arrays[s].locked
      && d.reg.arrays[s].items <= r.arrays[s].items
  {
    hide FireFrom, FireSafe, RecordsOk, IndexesOk, SourcesOk, ArraysOk, RecordsGrow;
    FireKeeps(d, s', i, n);
    var r := FireFrom(d, s', i, n).reg;
    assert Locked(d.reg, s) == Locked(r, s);
    assert s in r.arrays.Keys;
  }

  lemma {:induction false} ListenersKeep(d: Run, s: Slot)
    requires Inv(d.reg)
    ensures ListenersSafe(d, s) && Inv(FireListeners(d, s).reg) && Evolves(d.reg, FireListeners(d, s).reg)
    decreases PlanSize(d.plan), 2
  {
    hide Inv, Evolves, Lock, Unlock, FireFrom, FireSafe;
    EvolvesReflexive(d.reg);
    if HasArray(d.reg, s) {
      LockKeeps(d.reg, s);
      var r := Lock(d.reg, s);
      LockHasArray(d.reg, s);
      var n := |r.arrays[s].items|;
      FireKeeps(d.(reg := r, ok := true), s, 0, n);
      LockedRun(d.reg, s, FireFrom(d.(reg := r, ok := true), s, 0, n).reg);
    }
  }

  lemma LockHasArray(r: Registry, s: Slot)
    requires HasArray(r, s)
    ensures s in Lock(r, s).arrays && Lock(r, s).arrays[s].items == r.arrays[s].items
  {
  }

  lemma {:induction false} WalkKeeps(d: Run, p: Phase, order: seq<Source>, h: nat)
    requires Inv(d.reg)
    ensures WalkSafe(d, p, order, h)
    ensures Inv(Walk(d, p, order, h, true).reg) && Evolves(d.reg, Walk(d, p, order, h, true).reg)
    decreases PlanSize(d.plan), 3, |order| - h
  {
    hide Inv, Evolves, FireListeners, ListenersSafe, Remaining;
    EvolvesReflexive(d.reg);
    if !(d.stopped || d.thrown || h >= |order| || Remaining(d.reg, p) == 0) {
      var d1 := FireListeners(d, Slot(p, order[h]));
      ListenersKeep(d, Slot(p, order[h]));
      var d2 := d1.(ok := d.ok && d1.ok && d1.returnValue);
      WalkKeeps(d2, p, order, h + 1);
      EvolvesTransitive(d.reg, d1.reg, Walk(d2, p, order, h + 1, true).reg);
    }
  }

  lemma {:induction false} PhaseKeeps(d: Run, p: Phase, order: seq<Source>)
    requires Inv(d.reg)
    ensures var d' := DispatchPhase(d, p, order, true);
      PhaseSafe(d, p, order) && Inv(d'.reg) && Evolves(d.reg, d'.reg)
    decreases PlanSize(d.plan), 4
  {
    hide Inv, Evolves, Walk, WalkSafe, ResetRemaining;
    EvolvesReflexive(d.reg);
    if !d.thrown && p in d.reg.phases {
      var r := ResetRemaining(d.reg, p);
      ResetKeeps(d.reg, p);
      WalkKeeps(d.(reg := r), p, order, 0);
      EvolvesTransitive(d.reg, r, Walk(d.(reg := r), p, order, 0, true).reg);
    }
  }

  /** A dispatch, whatever its callbacks do, passes only through states with agreeing indexes
      and gives back every lock it took. */
  lemma {:induction false} DispatchKeeps(r: Registry, path: seq<Source>, t: EventType, plan: Plan)
    requires Inv(r)
    ensures var d := Dispatch(r, path, t, plan, true);
      DispatchSafe(r, path, t, plan) && Inv(d.reg) && Evolves(r, d.reg)
    decreases PlanSize(plan), 5
  {
    hide Inv, Evolves, DispatchPhase, PhaseSafe, Reverse;
    EvolvesReflexive(r);
    if t in r.types {
      var d0 := Run(r, plan, true, false, true, false);
      PhaseKeeps(d0, Phase(t, true), Reverse(path));
      var d1 := DispatchPhase(d0, Phase(t, true), Reverse(path), true);
      PhaseKeeps(d1, Phase(t, false), path);
      EvolvesTransitive(r, d1.reg, DispatchPhase(d1, Phase(t, false), path, true).reg);
    }
  }

  // ----- what the invariant says to a reader

  /** The three indexes agree: a key is in `listeners_` exactly when its record is not removed,
      and then it occurs once in its array of the tree and once in `sources_` of its source, and
      nowhere else; every `count_` is the number of children; an unlocked array holds no removed
      record. */
  lemma IndexesAgree(r: Registry)
    requires Inv(r)
    ensures forall k :: k in r.listeners <==> exists s :: s in r.arrays && k in r.arrays[s].items && Live(r, k)
    ensures forall k :: k in r.listeners <==> exists x :: x in r.sources && k in r.sources[x]
    ensures forall s, k :: s in r.arrays && k in r.arrays[s].items ==>
      s == r.records[k].slot && multiset(r.arrays[s].items)[k] == 1
    ensures forall x, k :: x in r.sources && k in r.sources[x] ==>
      x == r.records[k].slot.src && multiset(r.sources[x])[k] == 1
    ensures forall s, k :: s in r.arrays && r.arrays[s].locked == 0 && k in r.arrays[s].items ==> k in r.listeners
  {
    hide CountsOk;
    forall k | k in r.listeners
      ensures exists s :: s in r.arrays && k in r.arrays[s].items && Live(r, k)
      ensures exists x :: x in r.sources && k in r.sources[x]
    {
      assert Indexed(r, k);
    }
    forall s, k | s in r.arrays && k in r.arrays[s].items
      ensures s == r.records[k].slot && multiset(r.arrays[s].items)[k] == 1
    {
      assert ArrayOk(r, s, r.arrays[s]);
      DistinctOnce(r.arrays[s].items, k);
    }
    forall x, k | x in r.sources && k in r.sources[x]
      ensures k in r.listeners && x == r.records[k].slot.src && multiset(r.sources[x])[k] == 1
    {
      assert SourceOk(r, x, r.sources[x]);
      DistinctOnce(r.sources[x], k);
    }
  }

  lemma {:induction false} DistinctOnce(s: seq<Key>, k: Key)
    requires Distinct(s)
    ensures multiset(s)[k] == if k in s then 1 else 0
  {
    if s != [] {
      assert s == [s[0]] + s[1..];
      assert s[0] !in s[1..];
      DistinctOnce(s[1..], k);
    }
  }

  /** Every run of listen, unlisten, removal and dispatch from the empty registry, with
      callbacks that do any of these at any depth and calls of listen that throw, passes only
      through states with agreeing indexes, and leaves every array unlocked and free of removed
      records. */
  lemma EveryRun(acts: Actions)
    ensures ActionsSafe(EMPTY, acts)
    ensures var r := RunActions(EMPTY, acts);
      Inv(r) && forall s :: s in r.arrays ==> r.arrays[s].locked == 0 && !r.arrays[s].needsCleanup
  {
    ActionsKeep(EMPTY, acts);
    var r := RunActions(EMPTY, acts);
    hide RecordsOk, IndexesOk, SourcesOk, RunActions, ActionsSafe, CountsOk, RecordsGrow;
    forall s | s in r.arrays ensures r.arrays[s].locked == 0 && !r.arrays[s].needsCleanup {
      assert Locked(EMPTY, s) == Locked(r, s);
      assert ArrayOk(r, s, r.arrays[s]);
    }
  }
}
