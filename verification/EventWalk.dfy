/** The shortcut of `dispatchEvent`: the walk over the ancestors stops when `remaining_`
    reaches zero. Here is what callbacks do to `remaining_` while an array of the phase is
    locked, as long as none of them dispatches the same type along two sources or more. */
module EventWalk {
  import opened EventModel
  import opened EventInvariants
  import opened EventDispatch
  import opened EventSafety
  import opened Wrappers

  // ----- plans in which no callback dispatches type t along more than one source

  predicate ActionSpares(a: Action, t: EventType) {
    a.DoDispatch? ==> (a.typ != t || |a.path| <= 1) && PlanSpares(a.plan, t)
  }

  predicate ActionsSpare(acts: Actions, t: EventType) {
    match acts
    case Done => true
    case Then(a, rest) => ActionSpares(a, t) && ActionsSpare(rest, t)
  }

  predicate PlanSpares(plan: Plan, t: EventType) {
    match plan
    case Quiet => true
    case Next(call, later) => ActionsSpare(call.actions, t) && PlanSpares(later, t)
  }

  // ----- remaining_ grows at least as fast as the set of sources

  function Slots(r: Registry, p: Phase): set<Slot> {
    SlotsOf(r.arrays.Keys, p)
  }

  /** `remaining_` has grown by at least the number of sources that are new in the phase. */
  ghost predicate Gains(r: Registry, r': Registry, p: Phase) {
    Remaining(r', p) - Remaining(r, p) >= |Slots(r', p) - Slots(r, p)|
  }

  /** `remaining_` lacks at most one of all the sources of the phase. */
  ghost predicate Ample(r: Registry, p: Phase) {
    Remaining(r, p) >= |Slots(r, p)| - 1
  }

  /** Either is enough for a walk that has passed one of the sources. */
  ghost predicate Suffices(r: Registry, r': Registry, p: Phase) {
    Gains(r, r', p) || Ample(r', p)
  }

  lemma AmpleStays(r: Registry, r': Registry, p: Phase)
    requires Ample(r, p) && Gains(r, r', p)
    ensures Ample(r', p)
  {
    var x, y := Slots(r, p), Slots(r', p);
    hide Slots;
    SubsetSize(y, x + (y - x));
  }

  lemma SufficesTransitive(a: Registry, b: Registry, c: Registry, p: Phase)
    requires Suffices(a, b, p) && Suffices(b, c, p)
    ensures Suffices(a, c, p)
  {
    hide Gains, Ample;
    if Gains(b, c, p) {
      if Gains(a, b, p) {
        GainsTransitive(a, b, c, p);
      } else {
        AmpleStays(b, c, p);
      }
    }
  }

  lemma GainsSuffices(r: Registry, r': Registry, p: Phase)
    requires Gains(r, r', p)
    ensures Suffices(r, r', p)
  {
  }

  lemma SufficesReflexive(r: Registry, p: Phase)
    ensures Suffices(r, r, p)
  {
    GainsReflexive(r, p);
  }

  lemma GainsReflexive(r: Registry, p: Phase)
    ensures Gains(r, r, p)
  {
    assert Slots(r, p) - Slots(r, p) == {};
  }

  lemma SubsetSize<T>(a: set<T>, b: set<T>)
    requires a <= b
    ensures |a| <= |b|
  {
    assert b == a + (b - a);
  }

  lemma GainsTransitive(a: Registry, b: Registry, c: Registry, p: Phase)
    requires Gains(a, b, p) && Gains(b, c, p)
    ensures Gains(a, c, p)
  {
    var x, y, z := Slots(a, p), Slots(b, p), Slots(c, p);
    hide Slots;
    SubsetSize(z - x, (z - y) + (y - x));
  }

  /** Nothing new and `remaining_` as before. */
  lemma GainsShrink(r: Registry, r': Registry, p: Phase)
    requires Remaining(r', p) >= Remaining(r, p) && Slots(r', p) <= Slots(r, p)
    ensures Gains(r, r', p)
  {
    assert Slots(r', p) - Slots(r, p) == {};
  }

  lemma NodesGain(r: Registry, q: Phase, p: Phase)
    requires p in r.phases
    ensures Gains(r, EnterNodes(r, q), p)
  {
    GainsShrink(r, EnterNodes(r, q), p);
  }

  lemma PreparedGains(r: Registry, s: Slot, p: Phase)
    requires p in r.phases
    ensures Gains(r, Prepared(r, s), p)
  {
    var r' := Prepared(r, s);
    if s.phase == p {
      assert Remaining(r', p) == Remaining(r, p) + 1;
      SubsetSize(Slots(r', p) - Slots(r, p), {s});
    } else {
      GainsShrink(r, r', p);
    }
  }

  lemma SameSlotsGain(r: Registry, r1: Registry, r2: Registry, p: Phase)
    requires Gains(r, r1, p) && r2.phases == r1.phases && r2.arrays.Keys == r1.arrays.Keys
    ensures Gains(r, r2, p)
  {
  }

  lemma ListenGains(r: Registry, s: Slot, f: Callback, h: Handler, p: Phase)
    requires p in r.phases
    ensures Gains(r, Listen(r, s, f, h).0, p)
  {
    hide Gains, Prepared, FirstMatch;
    GainsReflexive(r, p);
    NodesGain(r, s.phase, p);
    PreparedGains(r, s, p);
    var r1 := Prepared(r, s);
    assert AddRecord(r1, s, f, h).arrays.Keys == r1.arrays.Keys;
    SameSlotsGain(r, r1, AddRecord(r1, s, f, h), p);
  }

  lemma ListenOnceGains(r: Registry, s: Slot, f: Callback, h: Handler, p: Phase)
    requires p in r.phases
    ensures Gains(r, ListenOnce(r, s, f, h).0, p)
  {
    ListenGains(r, s, f, h, p);
  }

  lemma CleanUpShrinks(r: Registry, s: Slot, p: Phase)
    requires HasArray(r, s) && p in r.phases && p in CleanUp(r, s).phases
    ensures Slots(CleanUp(r, s), p) <= Slots(r, p) && Remaining(CleanUp(r, s), p) == Remaining(r, p)
  {
  }

  lemma UnlistenByKeyGains(r: Registry, k: Key, p: Phase)
    requires p in r.phases && p in UnlistenByKey(r, k).0.phases
    ensures Gains(r, UnlistenByKey(r, k).0, p)
  {
    var r' := UnlistenByKey(r, k).0;
    if r' != r {
      var s := r.records[k].slot;
      var r1 := Retire(r, k);
      assert r1.arrays.Keys == r.arrays.Keys;
      CleanUpShrinks(r1, s, p);
    }
    GainsShrink(r, r', p);
  }

  /** A phase with a locked array stays in the tree. */
  lemma PhaseStays(r: Registry, r': Registry, s: Slot)
    requires Inv(r) && Inv(r') && Evolves(r, r') && Locked(r, s) > 0
    ensures Locked(r', s) > 0 && s.phase in r.phases && s.phase in r'.phases
  {
    hide RecordsOk, IndexesOk, SourcesOk, ArraysOk, RecordsGrow;
    assert Locked(r, s) == Locked(r', s);
  }

  lemma {:induction false} RemoveDownGains(
    r: Registry, keys: seq<Key>, t: Option<EventType>, c: Option<bool>, d: nat, s: Slot)
    requires Inv(r) && Locked(r, s) > 0
    ensures Gains(r, RemoveDown(r, keys, t, c, d).0, s.phase)
    decreases |keys|
  {
    hide Inv, Evolves, UnlistenByKey, Gains, Locked, Selected;
    GainsReflexive(r, s.phase);
    if keys != [] {
      var k, rest := keys[|keys| - 1], keys[..|keys| - 1];
      if Selected(r, k, t, c) {
        var r1 := UnlistenByKey(r, k).0;
        UnlistenByKeyKeeps(r, k);
        PhaseStays(r, r1, s);
        UnlistenByKeyGains(r, k, s.phase);
        RemoveDownGains(r1, rest, t, c, d + 1, s);
        GainsTransitive(r, r1, RemoveDown(r1, rest, t, c, d + 1).0, s.phase);
      } else {
        RemoveDownGains(r, rest, t, c, d, s);
      }
    }
  }

  // ----- what callbacks leave of the remaining_ of a locked array s suffices

  lemma {:induction false} ActionsSuffice(r: Registry, acts: Actions, s: Slot)
    requires Inv(r) && Locked(r, s) > 0 && ActionsSpare(acts, s.phase.typ)
    ensures Suffices(r, RunActions(r, acts), s.phase)
    decreases ActionsSize(acts), 0
  {
    hide Inv, Evolves, Suffices, Locked, RunAction, ActionSpares, ActionSafe;
    SufficesReflexive(r, s.phase);
    if acts.Then? {
      var r1 := RunAction(r, acts.first);
      ActionKeeps(r, acts.first);
      PhaseStays(r, r1, s);
      ActionSuffices(r, acts.first, s);
      ActionsSuffice(r1, acts.rest, s);
      SufficesTransitive(r, r1, RunActions(r1, acts.rest), s.phase);
    }
  }

  lemma {:induction false} ActionSuffices(r: Registry, a: Action, s: Slot)
    requires Inv(r) && Locked(r, s) > 0 && ActionSpares(a, s.phase.typ)
    ensures Suffices(r, RunAction(r, a), s.phase)
    decreases ActionSize(a), 0
  {
    hide Inv, Evolves, Gains, Ample, Locked, ActionSafe;
    hide Listen, ListenOnce, Unlisten, UnlistenByKey, RemoveAll, Dispatch;
    ActionKeeps(r, a);
    PhaseStays(r, RunAction(r, a), s);
    match a
    case DoListen(s', f, h) => ListenGains(r, s', f, h, s.phase);
    case DoListenOnce(s', f, h) => ListenOnceGains(r, s', f, h, s.phase);
    case DoUnlisten(s', f, h) => UnlistenGains(r, s', f, h, s);
    case DoUnlistenByKey(k) => UnlistenByKeyGains(r, k, s.phase);
    case DoRemoveAll(x, t, c) => RemoveAllGains(r, x, t, c, s);
    case DoDispatch(path, t, plan) => DispatchSuffices(r, path, t, plan, s);
  }

  lemma UnlistenGains(r: Registry, s': Slot, f: Callback, h: Handler, s: Slot)
    requires s.phase in r.phases && s.phase in Unlisten(r, s', f, h).0.phases
    ensures Gains(r, Unlisten(r, s', f, h).0, s.phase)
  {
    hide Gains, UnlistenByKey;
    GainsReflexive(r, s.phase);
    if s' in r.arrays {
      var i := FirstMatch(r, r.arrays[s'].items, f, h);
      if i < |r.arrays[s'].items| {
        UnlistenByKeyGains(r, r.arrays[s'].items[i], s.phase);
      }
    }
  }

  lemma RemoveAllGains(r: Registry, x: Source, t: Option<EventType>, c: Option<bool>, s: Slot)
    requires Inv(r) && Locked(r, s) > 0
    ensures Gains(r, RemoveAll(r, x, t, c).0, s.phase)
  {
    hide Inv, Gains, Locked, RemoveDown;
    GainsReflexive(r, s.phase);
    if x in r.sources {
      RemoveDownGains(r, r.sources[x], t, c, 0, s);
    }
  }

  lemma {:induction false} CallSuffices(d: Run, k: Key, s: Slot)
    requires Inv(d.reg) && Locked(d.reg, s) > 0 && PlanSpares(d.plan, s.phase.typ)
    ensures Suffices(d.reg, CallNext(d, k).reg, s.phase) && PlanSpares(CallNext(d, k).plan, s.phase.typ)
    decreases PlanSize(d.plan), 0
  {
    hide Inv, Evolves, Gains, Suffices, Locked, RunActions, ActionsSafe, UnlistenByKey, Fired, ActionsSpare;
    FiredKeeps(d.reg, k);
    var r := Fired(d.reg, k);
    FiredGains(d.reg, k, s.phase);
    GainsSuffices(d.reg, r, s.phase);
    PhaseStays(d.reg, r, s);
    EvolvesReflexive(r);
    if d.plan.Next? {
      ActionsKeep(r, d.plan.call.actions);
      ActionsSuffice(r, d.plan.call.actions, s);
      r := RunActions(r, d.plan.call.actions);
      PhaseStays(Fired(d.reg, k), r, s);
      SufficesTransitive(d.reg, Fired(d.reg, k), r, s.phase);
    }
    UnlistenByKeyKeeps(r, k);
    PhaseStays(r, UnlistenByKey(r, k).0, s);
    UnlistenByKeyGains(r, k, s.phase);
    GainsSuffices(r, UnlistenByKey(r, k).0, s.phase);
    SufficesTransitive(d.reg, r, UnlistenByKey(r, k).0, s.phase);
  }

  lemma FiredGains(r: Registry, k: Key, p: Phase)
    ensures Gains(r, Fired(r, k), p)
  {
    GainsShrink(r, Fired(r, k), p);
  }

  lemma {:induction false} FireSuffices(d: Run, s': Slot, i: nat, n: nat, s: Slot)
    requires Inv(d.reg) && Locked(d.reg, s) > 0 && PlanSpares(d.plan, s.phase.typ)
    ensures var d' := FireFrom(d, s', i, n);
      Suffices(d.reg, d'.reg, s.phase) && PlanSpares(d'.plan, s.phase.typ)
    decreases PlanSize(d.plan), 1, n - i
  {
    hide Inv, Evolves, Suffices, Locked, CallNext, Live, ActionsSafe, PlanSpares;
    SufficesReflexive(d.reg, s.phase);
    if !(i >= n || d.thrown || s' !in d.reg.arrays || i >= |d.reg.arrays[s'].items|) {
      var k := d.reg.arrays[s'].items[i];
      var d1 := if Live(d.reg, k) then CallNext(d, k) else d;
      if Live(d.reg, k) {
        CallKeeps(d, k);
        CallSuffices(d, k, s);
        PhaseStays(d.reg, d1.reg, s);
      }
      FireSuffices(d1, s', i + 1, n, s);
      SufficesTransitive(d.reg, d1.reg, FireFrom(d1, s', i + 1, n).reg, s.phase);
    }
  }

  // ----- a nested walk of another phase leaves the counter of this phase alone

  lemma LockOther(r: Registry, s': Slot, p: Phase)
    requires HasArray(r, s') && s'.phase != p
    ensures Gains(r, Lock(r, s'), p)
  {
    GainsShrink(r, Lock(r, s'), p);
  }

  lemma UnlockGains(r: Registry, s': Slot, p: Phase)
    requires p in r.phases && p in Unlock(r, s').phases
    ensures Gains(r, Unlock(r, s'), p)
  {
    if HasArray(r, s') && r.arrays[s'].locked > 0 {
      var r1 := Release(r, s');
      assert r1.arrays.Keys == r.arrays.Keys;
      CleanUpShrinks(r1, s', p);
    }
    GainsShrink(r, Unlock(r, s'), p);
  }

  lemma LockLocked(r: Registry, s': Slot, s: Slot)
    requires HasArray(r, s') && Locked(r, s) > 0
    ensures Locked(Lock(r, s'), s) > 0
  {
  }

  /** From the locking of the nested array s' to its unlocking. */
  lemma {:induction false} LockedSuffices(d: Run, s': Slot, s: Slot)
    requires Inv(d.reg) && Locked(d.reg, s) > 0 && PlanSpares(d.plan, s.phase.typ) && HasArray(d.reg, s')
    ensures var d' := FireListeners(d, s');
      && Suffices(Lock(d.reg, s'), d'.reg, s.phase) && PlanSpares(d'.plan, s.phase.typ)
    decreases PlanSize(d.plan), 2
  {
    hide Inv, Evolves, Gains, Suffices, Locked, Lock, Unlock, FireFrom, FireSafe, PlanSpares;
    var r := Lock(d.reg, s');
    LockKeeps(d.reg, s');
    LockHasArray(d.reg, s');
    LockLocked(d.reg, s', s);
    var n := |r.arrays[s'].items|;
    var d0 := d.(reg := r, ok := true);
    var d1 := FireFrom(d0, s', 0, n);
    FireKeeps(d0, s', 0, n);
    FireSuffices(d0, s', 0, n, s);
    PhaseStays(r, d1.reg, s);
    LockedRun(d.reg, s', d1.reg);
    PhaseStays(d.reg, Unlock(d1.reg, s'), s);
    UnlockGains(d1.reg, s', s.phase);
    GainsSuffices(d1.reg, Unlock(d1.reg, s'), s.phase);
    SufficesTransitive(r, d1.reg, Unlock(d1.reg, s'), s.phase);
  }

  lemma {:induction false} ListenersSuffice(d: Run, s': Slot, s: Slot)
    requires Inv(d.reg) && Locked(d.reg, s) > 0 && PlanSpares(d.plan, s.phase.typ) && s'.phase != s.phase
    ensures var d' := FireListeners(d, s');
      Suffices(d.reg, d'.reg, s.phase) && PlanSpares(d'.plan, s.phase.typ)
    decreases PlanSize(d.plan), 3
  {
    hide Inv, Gains, Suffices, Locked, Lock, Unlock, FireFrom, PlanSpares;
    SufficesReflexive(d.reg, s.phase);
    if HasArray(d.reg, s') {
      LockOther(d.reg, s', s.phase);
      GainsSuffices(d.reg, Lock(d.reg, s'), s.phase);
      LockedSuffices(d, s', s);
      SufficesTransitive(d.reg, Lock(d.reg, s'), FireListeners(d, s').reg, s.phase);
    }
  }

  lemma {:induction false} WalkSuffices(d: Run, p: Phase, order: seq<Source>, h: nat, s: Slot)
    requires Inv(d.reg) && Locked(d.reg, s) > 0 && PlanSpares(d.plan, s.phase.typ) && p != s.phase
    ensures var d' := Walk(d, p, order, h, true);
      Suffices(d.reg, d'.reg, s.phase) && PlanSpares(d'.plan, s.phase.typ)
    decreases PlanSize(d.plan), 4, |order| - h
  {
    hide Inv, Evolves, Suffices, Locked, FireListeners, ListenersSafe, Remaining, PlanSpares;
    SufficesReflexive(d.reg, s.phase);
    if !(d.stopped || d.thrown || h >= |order| || Remaining(d.reg, p) == 0) {
      var s' := Slot(p, order[h]);
      var d1 := FireListeners(d, s');
      ListenersKeep(d, s');
      ListenersSuffice(d, s', s);
      PhaseStays(d.reg, d1.reg, s);
      var d2 := d1.(ok := d.ok && d1.ok && d1.returnValue);
      WalkSuffices(d2, p, order, h + 1, s);
      SufficesTransitive(d.reg, d1.reg, Walk(d2, p, order, h + 1, true).reg, s.phase);
    }
  }

  lemma ResetOther(r: Registry, p: Phase, q: Phase)
    requires p in r.phases && p != q
    ensures Gains(r, ResetRemaining(r, p), q)
  {
    GainsShrink(r, ResetRemaining(r, p), q);
  }

  lemma {:induction false} OtherPhaseSuffices(d: Run, p: Phase, order: seq<Source>, s: Slot)
    requires Inv(d.reg) && Locked(d.reg, s) > 0 && PlanSpares(d.plan, s.phase.typ) && p != s.phase
    ensures var d' := DispatchPhase(d, p, order, true);
      Suffices(d.reg, d'.reg, s.phase) && PlanSpares(d'.plan, s.phase.typ)
    decreases PlanSize(d.plan), 5
  {
    hide Inv, Evolves, Gains, Suffices, Locked, Walk, ResetRemaining, PlanSpares;
    SufficesReflexive(d.reg, s.phase);
    if !d.thrown && p in d.reg.phases {
      var r := ResetRemaining(d.reg, p);
      ResetKeeps(d.reg, p);
      ResetOther(d.reg, p, s.phase);
      GainsSuffices(d.reg, r, s.phase);
      PhaseStays(d.reg, r, s);
      WalkSuffices(d.(reg := r), p, order, 0, s);
      SufficesTransitive(d.reg, r, Walk(d.(reg := r), p, order, 0, true).reg, s.phase);
    }
  }

  // ----- a nested walk of the same phase sets the counter anew and takes one from it

  lemma ResetCounts(r: Registry, p: Phase)
    requires CountsOk(r) && p in r.phases
    ensures Remaining(ResetRemaining(r, p), p) == |Slots(ResetRemaining(r, p), p)|
  {
    assert ResetRemaining(r, p).arrays.Keys == r.arrays.Keys;
  }

  lemma LockTakesOne(r: Registry, s: Slot)
    requires HasArray(r, s) && Remaining(r, s.phase) == |Slots(r, s.phase)|
    ensures Ample(Lock(r, s), s.phase)
  {
    assert Lock(r, s).arrays.Keys == r.arrays.Keys;
  }

  lemma {:induction false} OneListenerSuffices(d: Run, x: Source, s: Slot)
    requires Inv(d.reg) && Locked(d.reg, s) > 0 && PlanSpares(d.plan, s.phase.typ)
    requires Remaining(d.reg, s.phase) == |Slots(d.reg, s.phase)|
    ensures var d' := FireListeners(d, Slot(s.phase, x));
      Ample(d'.reg, s.phase) && PlanSpares(d'.plan, s.phase.typ)
    decreases PlanSize(d.plan), 3
  {
    hide Inv, Gains, Locked, Lock, Unlock, FireFrom, PlanSpares;
    var s' := Slot(s.phase, x);
    if HasArray(d.reg, s') {
      LockTakesOne(d.reg, s');
      LockedSuffices(d, s', s);
      AmpleSuffices(Lock(d.reg, s'), FireListeners(d, s').reg, s.phase);
    }
  }

  lemma AmpleSuffices(r: Registry, r': Registry, p: Phase)
    requires Ample(r, p) && Suffices(r, r', p)
    ensures Ample(r', p)
  {
    hide Gains, Ample;
    if Gains(r, r', p) {
      AmpleStays(r, r', p);
    }
  }

  lemma {:induction false} SamePhaseSuffices(d: Run, order: seq<Source>, s: Slot)
    requires Inv(d.reg) && Locked(d.reg, s) > 0 && PlanSpares(d.plan, s.phase.typ) && |order| <= 1
    ensures var d' := DispatchPhase(d, s.phase, order, true);
      Suffices(d.reg, d'.reg, s.phase) && PlanSpares(d'.plan, s.phase.typ)
    decreases PlanSize(d.plan), 5
  {
    hide Inv, Evolves, Gains, Locked, FireListeners, ResetRemaining, PlanSpares, Remaining, Slots;
    var p := s.phase;
    GainsReflexive(d.reg, p);
    if !d.thrown && p in d.reg.phases {
      var r := ResetRemaining(d.reg, p);
      CountsOfInv(d.reg);
      ResetCounts(d.reg, p);
      ResetKeeps(d.reg, p);
      PhaseStays(d.reg, r, s);
      var d0 := d.(reg := r);
      if order != [] {
        OneListenerSuffices(d0, order[0], s);
        OneStep(d0, p, order);
      }
    }
  }

  lemma CountsOfInv(r: Registry)
    requires Inv(r)
    ensures CountsOk(r)
  {
  }

  lemma OneStep(d: Run, p: Phase, order: seq<Source>)
    requires |order| == 1
    ensures var d' := Walk(d, p, order, 0, true);
      var d1 := FireListeners(d, Slot(p, order[0]));
      d' == d || (d'.reg == d1.reg && d'.plan == d1.plan)
  {
    hide FireListeners;
  }

  lemma {:induction false} PhaseSuffices(d: Run, p: Phase, order: seq<Source>, s: Slot)
    requires Inv(d.reg) && Locked(d.reg, s) > 0 && PlanSpares(d.plan, s.phase.typ) && (p != s.phase || |order| <= 1)
    ensures var d' := DispatchPhase(d, p, order, true);
      Suffices(d.reg, d'.reg, s.phase) && PlanSpares(d'.plan, s.phase.typ)
    decreases PlanSize(d.plan), 6
  {
    hide Inv, Suffices, Locked, DispatchPhase, PlanSpares;
    if p == s.phase {
      SamePhaseSuffices(d, order, s);
    } else {
      OtherPhaseSuffices(d, p, order, s);
    }
  }

  lemma {:induction false} DispatchSuffices(r: Registry, path: seq<Source>, t: EventType, plan: Plan, s: Slot)
    requires Inv(r) && Locked(r, s) > 0 && PlanSpares(plan, s.phase.typ) && (t != s.phase.typ || |path| <= 1)
    ensures Suffices(r, Dispatch(r, path, t, plan, true).reg, s.phase)
    decreases PlanSize(plan), 7
  {
    hide Inv, Evolves, Suffices, Locked, DispatchPhase, PhaseSafe, Reverse, PlanSpares;
    SufficesReflexive(r, s.phase);
    if t in r.types {
      var d0 := Run(r, plan, true, false, true, false);
      var d1 := DispatchPhase(d0, Phase(t, true), Reverse(path), true);
      PhaseKeeps(d0, Phase(t, true), Reverse(path));
      PhaseSuffices(d0, Phase(t, true), Reverse(path), s);
      PhaseStays(r, d1.reg, s);
      PhaseSuffices(d1, Phase(t, false), path, s);
      SufficesTransitive(r, d1.reg, DispatchPhase(d1, Phase(t, false), path, true).reg, s.phase);
    }
  }
}
