/** Arrays without records and phase nodes without arrays. `listen` makes the nodes before it asks
    for the uid of the source, and the array before `Listener.init` looks at the listener, so a
    call that throws can leave such places in the tree, and nothing else can. */
module EventFilled {
  import opened EventModel
  import opened EventInvariants
  import opened EventDispatch
  import opened EventSafety
  import opened Wrappers

  ghost predicate Filled(r: Registry) {
    && (forall s :: s in r.arrays ==> r.arrays[s].items != [])
    && (forall p :: p in r.phases ==> r.phases[p].count > 0)
  }

  // ----- one call

  /** A call that throws finds the nodes, and the array, that it would have made. */
  predicate FindsPlace(r: Registry, s: Slot, f: Callback) {
    || s.phase.typ == NO_TYPE
    || (if s.src == NO_SOURCE then s.phase in r.phases else f != NO_LISTENER || s in r.arrays)
  }

  lemma NodesFillExactly(r: Registry, p: Phase)
    requires Filled(r)
    ensures Filled(EnterNodes(r, p)) <==> p in r.phases
  {
    assert p !in r.phases ==> EnterNodes(r, p).phases[p].count == 0;
  }

  /** Full places, but for the array at s. */
  ghost predicate FilledBut(r: Registry, s: Slot) {
    && (forall s' :: s' in r.arrays && s' != s ==> r.arrays[s'].items != [])
    && (forall p :: p in r.phases ==> r.phases[p].count > 0)
  }

  lemma PreparedFillExactly(r: Registry, s: Slot)
    requires Filled(r) && (s in r.arrays ==> s.phase in r.phases)
    ensures FilledBut(Prepared(r, s), s)
    ensures Filled(Prepared(r, s)) <==> s in r.arrays
    ensures s !in r.arrays ==> Prepared(r, s).arrays[s].items == []
  {
    var r' := Prepared(r, s);
    if s !in r.arrays {
      assert r'.arrays[s].items == [] && r'.phases[s.phase].count > 0;
    } else {
      assert r'.arrays == r.arrays;
    }
  }

  lemma AddRecordFills(r: Registry, s: Slot, f: Callback, h: Handler)
    requires s in r.arrays && FilledBut(r, s)
    ensures Filled(AddRecord(r, s, f, h))
  {
    assert AddRecord(r, s, f, h).arrays[s].items != [];
  }

  lemma ListenFillsExactly(r: Registry, s: Slot, f: Callback, h: Handler)
    requires CountsOk(r) && Filled(r)
    ensures Filled(Listen(r, s, f, h).0) <==> FindsPlace(r, s, f)
  {
    assert s in r.arrays ==> s in r.arrays.Keys;
    NodesFillExactly(r, s.phase);
    PreparedFillExactly(r, s);
    var r1 := Prepared(r, s);
    AddRecordFills(r1, s, f, h);
    hide CountsOk, FirstMatch, Filled, FilledBut, Prepared, EnterNodes, AddRecord;
  }

  /** The first call of a page with an invalid listener leaves an unlocked array without records,
      and without a source a phase node without arrays. */
  lemma EmptyPlacesReached(s: Slot, f: Callback, h: Handler)
    requires s.phase.typ != NO_TYPE && (s.src == NO_SOURCE || f == NO_LISTENER)
    ensures var (r, k) := Listen(EMPTY, s, f, h);
      && k == None && Inv(r) && !Filled(r) && r.listeners == {} && r.types == map[s.phase.typ := 1]
      && (if s.src == NO_SOURCE then r.arrays == map[] && r.phases == map[s.phase := PhaseNode(0, 0)]
          else r.arrays == map[s := ListenerArray([], 0, false)] && r.phases == map[s.phase := PhaseNode(1, 1)])
  {
    hide Inv;
    EmptyIsInv();
    ListenKeeps(EMPTY, s, f, h);
    ListenFillsExactly(EMPTY, s, f, h);
  }

  lemma EmptyIsInv()
    ensures Inv(EMPTY)
  {
  }

  // ----- runs in which no call of listen lacks a source or a valid listener

  predicate ActionValid(a: Action) {
    match a
    case DoListen(s, f, _) => s.src != NO_SOURCE && f != NO_LISTENER
    case DoListenOnce(s, f, _) => s.src != NO_SOURCE && f != NO_LISTENER
    case DoDispatch(_, _, plan) => PlanValid(plan)
    case _ => true
  }

  predicate ActionsValid(acts: Actions) {
    match acts
    case Done => true
    case Then(a, rest) => ActionValid(a) && ActionsValid(rest)
  }

  predicate PlanValid(plan: Plan) {
    match plan
    case Quiet => true
    case Next(call, later) => ActionsValid(call.actions) && PlanValid(later)
  }

  lemma CleanUpFills(r: Registry, s: Slot)
    requires HasArray(r, s) && Filled(r)
    ensures Filled(CleanUp(r, s))
  {
  }

  lemma UnlistenByKeyFills(r: Registry, k: Key)
    requires Filled(r)
    ensures Filled(UnlistenByKey(r, k).0)
  {
    hide CleanUp;
    if k in r.listeners && Live(r, k) && HasArray(r, r.records[k].slot) {
      CleanUpFills(Retire(r, k), r.records[k].slot);
    }
  }

  lemma {:induction false} RemoveDownFills(r: Registry, keys: seq<Key>, t: Option<EventType>, c: Option<bool>, d: nat)
    requires Filled(r)
    ensures Filled(RemoveDown(r, keys, t, c, d).0)
    decreases |keys|
  {
    hide UnlistenByKey, Filled, Selected;
    if keys != [] {
      var k, rest := keys[|keys| - 1], keys[..|keys| - 1];
      UnlistenByKeyFills(r, k);
      RemoveDownFills(UnlistenByKey(r, k).0, rest, t, c, d + 1);
      RemoveDownFills(r, rest, t, c, d);
    }
  }

  lemma {:induction false} ActionsFill(r: Registry, acts: Actions)
    requires Inv(r) && Filled(r) && ActionsValid(acts)
    ensures Filled(RunActions(r, acts))
    decreases ActionsSize(acts), 0
  {
    hide Inv, Filled, RunAction, ActionValid, ActionSafe, Evolves;
    if acts.Then? {
      ActionKeeps(r, acts.first);
      ActionFills(r, acts.first);
      ActionsFill(RunAction(r, acts.first), acts.rest);
    }
  }

  lemma {:induction false} ActionFills(r: Registry, a: Action)
    requires Inv(r) && Filled(r) && ActionValid(a)
    ensures Filled(RunAction(r, a))
    decreases ActionSize(a), 0
  {
    hide Filled, Listen, UnlistenByKey, RemoveDown, Dispatch;
    hide RecordsOk, CountsOk, ArraysOk, IndexesOk, SourcesOk;
    match a
    case DoListen(s, f, h) => ListenFillsExactly(r, s, f, h);
    case DoListenOnce(s, f, h) =>
      ListenFillsExactly(r, s, f, h);
      OnceFills(r, s, f, h);
    case DoUnlisten(s, f, h) =>
      if s in r.arrays {
        var i := FirstMatch(r, r.arrays[s].items, f, h);
        if i < |r.arrays[s].items| {
          UnlistenByKeyFills(r, r.arrays[s].items[i]);
        }
      }
    case DoUnlistenByKey(k) => UnlistenByKeyFills(r, k);
    case DoRemoveAll(x, t, c) =>
      if x in r.sources {
        RemoveDownFills(r, r.sources[x], t, c, 0);
      }
    case DoDispatch(path, t, plan) => DispatchFills(r, path, t, plan);
  }

  lemma OnceFills(r: Registry, s: Slot, f: Callback, h: Handler)
    requires Filled(Listen(r, s, f, h).0)
    ensures Filled(ListenOnce(r, s, f, h).0)
  {
    hide Listen;
  }

  lemma {:induction false} CallFills(d: Run, k: Key)
    requires Inv(d.reg) && Filled(d.reg) && PlanValid(d.plan)
    ensures Filled(CallNext(d, k).reg) && PlanValid(CallNext(d, k).plan)
    decreases PlanSize(d.plan), 0
  {
    hide Inv, RunActions, UnlistenByKey, ActionsValid, Evolves;
    var r := Fired(d.reg, k);
    FiredKeeps(d.reg, k);
    assert Filled(r);
    hide Filled;
    if d.plan.Next? {
      ActionsFill(r, d.plan.call.actions);
      r := RunActions(r, d.plan.call.actions);
    }
    UnlistenByKeyFills(r, k);
  }

  lemma {:induction false} FireFills(d: Run, s: Slot, i: nat, n: nat)
    requires Inv(d.reg) && Filled(d.reg) && PlanValid(d.plan)
    ensures Filled(FireFrom(d, s, i, n).reg) && PlanValid(FireFrom(d, s, i, n).plan)
    decreases PlanSize(d.plan), 1, n - i
  {
    hide Inv, Filled, CallNext, PlanValid, Live, ActionsSafe, Evolves;
    if !(i >= n || d.thrown || s !in d.reg.arrays || i >= |d.reg.arrays[s].items|) {
      var k := d.reg.arrays[s].items[i];
      if Live(d.reg, k) {
        CallKeeps(d, k);
        CallFills(d, k);
      }
      FireFills(if Live(d.reg, k) then CallNext(d, k) else d, s, i + 1, n);
    }
  }

  lemma LockFills(r: Registry, s: Slot)
    requires HasArray(r, s) && Filled(r)
    ensures Filled(Lock(r, s)) && s in Lock(r, s).arrays
  {
  }

  lemma UnlockFills(r: Registry, s: Slot)
    requires Filled(r)
    ensures Filled(Unlock(r, s))
  {
    hide CleanUp;
    if HasArray(r, s) && r.arrays[s].locked > 0 {
      CleanUpFills(Release(r, s), s);
    }
  }

  lemma {:induction false} ListenersFill(d: Run, s: Slot)
    requires Inv(d.reg) && Filled(d.reg) && PlanValid(d.plan)
    ensures Filled(FireListeners(d, s).reg) && PlanValid(FireListeners(d, s).plan)
    decreases PlanSize(d.plan), 2
  {
    hide Inv, Filled, FireFrom, PlanValid, Lock, Unlock;
    if HasArray(d.reg, s) {
      var r := Lock(d.reg, s);
      LockKeeps(d.reg, s);
      LockFills(d.reg, s);
      var d0 := d.(reg := r, ok := true);
      FireFills(d0, s, 0, |r.arrays[s].items|);
      UnlockFills(FireFrom(d0, s, 0, |r.arrays[s].items|).reg, s);
    }
  }

  lemma {:induction false} WalkFills(d: Run, p: Phase, order: seq<Source>, h: nat)
    requires Inv(d.reg) && Filled(d.reg) && PlanValid(d.plan)
    ensures Filled(Walk(d, p, order, h, true).reg) && PlanValid(Walk(d, p, order, h, true).plan)
    decreases PlanSize(d.plan), 3, |order| - h
  {
    hide Inv, Filled, FireListeners, PlanValid, Remaining, ListenersSafe, Evolves;
    if !(d.stopped || d.thrown || h >= |order| || Remaining(d.reg, p) == 0) {
      var d1 := FireListeners(d, Slot(p, order[h]));
      ListenersKeep(d, Slot(p, order[h]));
      ListenersFill(d, Slot(p, order[h]));
      WalkFills(d1.(ok := d.ok && d1.ok && d1.returnValue), p, order, h + 1);
    }
  }

  lemma {:induction false} PhaseFills(d: Run, p: Phase, order: seq<Source>)
    requires Inv(d.reg) && Filled(d.reg) && PlanValid(d.plan)
    ensures var d' := DispatchPhase(d, p, order, true); Filled(d'.reg) && PlanValid(d'.plan)
    decreases PlanSize(d.plan), 4
  {
    hide Inv, Walk, PlanValid, Evolves;
    if !d.thrown && p in d.reg.phases {
      ResetKeeps(d.reg, p);
      WalkFills(d.(reg := ResetRemaining(d.reg, p)), p, order, 0);
    }
  }

  lemma {:induction false} DispatchFills(r: Registry, path: seq<Source>, t: EventType, plan: Plan)
    requires Inv(r) && Filled(r) && PlanValid(plan)
    ensures Filled(Dispatch(r, path, t, plan, true).reg)
    decreases PlanSize(plan), 5
  {
    hide Inv, Filled, DispatchPhase, PlanValid, Reverse, PhaseSafe, Evolves;
    if t in r.types {
      var d0 := Run(r, plan, true, false, true, false);
      PhaseKeeps(d0, Phase(t, true), Reverse(path));
      PhaseFills(d0, Phase(t, true), Reverse(path));
      PhaseFills(DispatchPhase(d0, Phase(t, true), Reverse(path), true), Phase(t, false), path);
    }
  }

  /** In every run from the empty registry in which no call of listen, at any depth, lacks a source
      or a valid listener, every array of the tree holds a record and every node has a child. */
  lemma ValidRunFills(acts: Actions)
    requires ActionsValid(acts)
    ensures Filled(RunActions(EMPTY, acts))
  {
    EmptyIsInv();
    ActionsFill(EMPTY, acts);
  }
}
