/** The limit of the shortcut: what a nested dispatch of the same type does to `remaining_`. */
module EventNested {
  import opened EventModel
  import opened EventInvariants
  import opened EventDispatch
  import opened EventWalk
  import opened EventShortcut

  // ----- one listener on a source a and one on its parent b

  function At(t: EventType, x: Source): Slot {
    Slot(Phase(t, false), x)
  }

  /** The array of a is locked `lock` times. */
  function Two(t: EventType, a: Source, b: Source, remaining: int, lock: nat, fired: seq<Key>): Registry {
    Registry(2,
      map[1 := Listener(At(t, a), 1, 0, false, false), 2 := Listener(At(t, b), 2, 0, false, false)], {1, 2},
      map[t := 1], map[Phase(t, false) := PhaseNode(2, remaining)],
      map[At(t, a) := ListenerArray([1], lock, false), At(t, b) := ListenerArray([2], 0, false)],
      map[a := [1], b := [2]], fired)
  }

  lemma TwoSlots(t: EventType, a: Source, b: Source)
    requires a != b
    ensures CountsOk(Two(t, a, b, 2, 0, []))
  {
    var r, p := Two(t, a, b, 2, 0, []), Phase(t, false);
    assert r.arrays.Keys == {At(t, a), At(t, b)};
    assert SlotsOf(r.arrays.Keys, p) == {At(t, a), At(t, b)};
    assert PhasesOf(r.phases.Keys, t) == {p};
  }

  lemma TwoIsInv(t: EventType, a: Source, b: Source)
    requires a != b
    ensures Inv(Two(t, a, b, 2, 0, []))
  {
    hide CountsOk;
    TwoSlots(t, a, b);
  }

  /** The first listener of a source. */
  lemma FreshListen(r: Registry, s: Slot, f: Callback, h: Handler)
    requires s.phase.typ != NO_TYPE && s.src != NO_SOURCE && f != NO_LISTENER && s !in r.arrays && s.src !in r.sources
    ensures var r1 := EnterPhase(r, s.phase);
      var node := r1.phases[s.phase];
      var k := r.counter + 1;
      Listen(r, s, f, h).0 == r1.(
        counter := k, records := r.records[k := Listener(s, f, h, false, false)], listeners := r.listeners + {k},
        phases := r1.phases[s.phase := node.(count := node.count + 1)],
        arrays := r.arrays[s := ListenerArray([k], 0, false)], sources := r.sources[s.src := [k]])
  {
    assert [] + [r.counter + 1] == [r.counter + 1];
    assert r.arrays[s := ListenerArray([], 0, false)][s := ListenerArray([r.counter + 1], 0, false)]
        == r.arrays[s := ListenerArray([r.counter + 1], 0, false)];
  }

  function One(t: EventType, a: Source): Registry {
    Registry(1,
      map[1 := Listener(At(t, a), 1, 0, false, false)], {1}, map[t := 1], map[Phase(t, false) := PhaseNode(1, 1)],
      map[At(t, a) := ListenerArray([1], 0, false)], map[a := [1]], [])
  }

  lemma FirstListens(t: EventType, a: Source)
    requires t != NO_TYPE && a != NO_SOURCE
    ensures Listen(EMPTY, At(t, a), 1, 0).0 == One(t, a)
  {
    hide Listen;
    FreshListen(EMPTY, At(t, a), 1, 0);
    assert Listen(EMPTY, At(t, a), 1, 0).0.listeners == {1};
  }

  lemma SecondListens(t: EventType, a: Source, b: Source)
    requires t != NO_TYPE && a != b && b != NO_SOURCE
    ensures Listen(One(t, a), At(t, b), 2, 0).0 == Two(t, a, b, 2, 0, [])
  {
    hide Listen;
    FreshListen(One(t, a), At(t, b), 2, 0);
    assert Listen(One(t, a), At(t, b), 2, 0).0.listeners == {1, 2};
  }

  /** Two calls of `listen` lead to this state. */
  lemma TwoReached(t: EventType, a: Source, b: Source)
    requires t != NO_TYPE && a != b && a != NO_SOURCE && b != NO_SOURCE
    ensures var setup := Then(DoListen(At(t, a), 1, 0), Then(DoListen(At(t, b), 2, 0), Done));
      RunActions(EMPTY, setup) == Two(t, a, b, 2, 0, [])
  {
    hide Listen;
    FirstListens(t, a);
    SecondListens(t, a, b);
    var second := Then(DoListen(At(t, b), 2, 0), Done);
    assert RunActions(EMPTY, Then(DoListen(At(t, a), 1, 0), second)) == RunActions(One(t, a), second);
  }

  // ----- dispatching along p, which starts with a and b

  function QuietRun(r: Registry): Run {
    Run(r, Quiet, true, false, true, false)
  }

  lemma VisitTwo(t: EventType, a: Source, b: Source, remaining: int, lock: nat, fired: seq<Key>, x: Source, k: Key)
    requires a != b && ((x == a && k == 1) || (x == b && k == 2))
    ensures FireListeners(QuietRun(Two(t, a, b, remaining, lock, fired)), At(t, x))
      == QuietRun(Two(t, a, b, remaining - 1, lock, fired + [k]))
  {
    hide FireListeners;
    var r, s := Two(t, a, b, remaining, lock, fired), At(t, x);
    assert r.arrays[s].items == [k] && [k][1..] == [];
    assert LiveItems(r, [k]) == [k] + LiveItems(r, []);
    QuietListeners(QuietRun(r), s);
  }

  predicate StartsWith(p: seq<Source>, a: Source, b: Source) {
    |p| >= 2 && p[0] == a && p[1] == b && a != b
  }

  /** A walk along p up to a source. */
  lemma WalkStep(d: Run, p: Phase, order: seq<Source>, h: nat, counted: bool)
    requires !d.stopped && !d.thrown && h < |order| && (counted ==> Remaining(d.reg, p) != 0)
    ensures var d1 := FireListeners(d, Slot(p, order[h]));
      Walk(d, p, order, h, counted) == Walk(d1.(ok := d.ok && d1.ok && d1.returnValue), p, order, h + 1, counted)
  {
    hide FireListeners;
  }

  lemma WalkEnds(d: Run, p: Phase, order: seq<Source>, h: nat)
    requires Remaining(d.reg, p) == 0
    ensures Walk(d, p, order, h, true) == d
  {
    hide FireListeners;
  }

  /** A quiet dispatch takes `remaining_` to zero. */
  lemma DispatchTwo(t: EventType, a: Source, b: Source, p: seq<Source>, remaining: int, lock: nat, fired: seq<Key>)
    requires StartsWith(p, a, b)
    ensures Dispatch(Two(t, a, b, remaining, lock, fired), p, t, Quiet, true)
      == QuietRun(Two(t, a, b, 0, lock, fired + [1, 2]))
  {
    hide FireListeners, Walk, ResetRemaining;
    var q := Phase(t, false);
    VisitTwo(t, a, b, 2, lock, fired, a, 1);
    VisitTwo(t, a, b, 1, lock, fired + [1], b, 2);
    assert fired + [1] + [2] == fired + [1, 2];
    ResetTwo(t, a, b, remaining, lock, fired);
    WalkStep(QuietRun(Two(t, a, b, 2, lock, fired)), q, p, 0, true);
    WalkStep(QuietRun(Two(t, a, b, 1, lock, fired + [1])), q, p, 1, true);
    WalkEnds(QuietRun(Two(t, a, b, 0, lock, fired + [1, 2])), q, p, 2);
  }

  lemma ResetTwo(t: EventType, a: Source, b: Source, remaining: int, lock: nat, fired: seq<Key>)
    ensures ResetRemaining(Two(t, a, b, remaining, lock, fired), Phase(t, false)) == Two(t, a, b, 2, lock, fired)
  {
  }

  // ----- a callback that dispatches again

  /** The first callback dispatches quietly along p; the others do nothing. */
  function Again(t: EventType, p: seq<Source>): Plan {
    Next(Call(Then(DoDispatch(p, t, Quiet), Done), false, false, false, false), Quiet)
  }

  lemma CallAgain(t: EventType, a: Source, b: Source, p: seq<Source>)
    requires StartsWith(p, a, b)
    ensures CallNext(Run(Two(t, a, b, 1, 1, []), Again(t, p), true, false, true, false), 1)
      == QuietRun(Two(t, a, b, 0, 1, [1, 1, 2]))
  {
    hide Dispatch;
    var r := Two(t, a, b, 1, 1, [1]);
    assert Fired(Two(t, a, b, 1, 1, []), 1) == r;
    DispatchTwo(t, a, b, p, 1, 1, [1]);
    var acts := Again(t, p).call.actions;
    assert RunActions(r, acts) == RunActions(RunAction(r, acts.first), Done);
    assert [1] + [1, 2] == [1, 1, 2];
  }

  lemma VisitAgain(t: EventType, a: Source, b: Source, p: seq<Source>)
    requires StartsWith(p, a, b)
    ensures FireListeners(Run(Two(t, a, b, 2, 0, []), Again(t, p), true, false, true, false), At(t, a))
      == QuietRun(Two(t, a, b, 0, 0, [1, 1, 2]))
  {
    hide Dispatch, CallNext;
    var s, d := At(t, a), Run(Two(t, a, b, 1, 1, []), Again(t, p), true, false, true, false);
    LocksTwo(t, a, b);
    UnlocksTwo(t, a, b, [1, 1, 2]);
    CallAgain(t, a, b, p);
    hide Lock, Unlock;
    assert FireFrom(d, s, 0, 1) == FireFrom(CallNext(d, 1), s, 1, 1);
  }

  lemma LocksTwo(t: EventType, a: Source, b: Source)
    requires a != b
    ensures Lock(Two(t, a, b, 2, 0, []), At(t, a)) == Two(t, a, b, 1, 1, [])
  {
  }

  lemma UnlocksTwo(t: EventType, a: Source, b: Source, fired: seq<Key>)
    requires a != b
    ensures Unlock(Two(t, a, b, 0, 1, fired), At(t, a)) == Two(t, a, b, 0, 0, fired)
  {
  }

  /** The inner dispatch uses `remaining_` up, and the outer one never reaches the listener of
      the parent. */
  lemma NestedDispatchMissesParent(t: EventType, a: Source, b: Source, p: seq<Source>)
    requires StartsWith(p, a, b) && Distinct(p)
    ensures var r := Two(t, a, b, 2, 0, []);
      && Dispatch(r, p, t, Again(t, p), true).reg.fired == [1, 1, 2]
      && Dispatch(r, p, t, Again(t, p), false).reg.fired == [1, 1, 2, 2]
  {
    hide FireListeners, Walk, ResetRemaining;
    var q, d := Phase(t, false), Run(Two(t, a, b, 2, 0, []), Again(t, p), true, false, true, false);
    ResetTwo(t, a, b, 2, 0, []);
    VisitAgain(t, a, b, p);
    VisitTwo(t, a, b, 0, 0, [1, 1, 2], b, 2);
    assert [1, 1, 2] + [2] == [1, 1, 2, 2];
    WalkStep(d, q, p, 0, true);
    WalkStep(d, q, p, 0, false);
    var d1 := QuietRun(Two(t, a, b, 0, 0, [1, 1, 2]));
    WalkEnds(d1, q, p, 1);
    WalkStep(d1, q, p, 1, false);
    NoMoreArrays(t, a, b, p);
    IdleWalk(QuietRun(Two(t, a, b, -1, 0, [1, 1, 2, 2])), q, p, 2);
  }

  lemma NoMoreArrays(t: EventType, a: Source, b: Source, p: seq<Source>)
    requires StartsWith(p, a, b) && Distinct(p)
    ensures forall j :: 2 <= j < |p| ==> p[j] != a && p[j] != b
  {
    forall j | 2 <= j < |p| ensures p[j] != a && p[j] != b {
      assert p[j] != p[0] && p[j] != p[1];
    }
  }

  // ----- the exact limit

  predicate Exact(r: Registry, path: seq<Source>, t: EventType, plan: Plan) {
    Dispatch(r, path, t, plan, true) == Dispatch(r, path, t, plan, false)
  }

  /** When a callback dispatches once more and does nothing else, the shortcut is exact on all
      registries if and only if that dispatch has another type or no more than one source. */
  lemma NestedLimitExactly(t: EventType, t': EventType, p: seq<Source>)
    requires Distinct(p)
    ensures (forall r, path :: Inv(r) && Distinct(path) ==> Exact(r, path, t, Again(t', p))) <==> t' != t || |p| <= 1
  {
    if t' != t || |p| <= 1 {
      AgainSpares(t, t', p);
      hide Inv, Distinct, Dispatch, PlanSpares;
      forall r, path | Inv(r) && Distinct(path) ensures Exact(r, path, t, Again(t', p)) {
        DispatchShortcut(r, path, t, Again(t', p));
      }
    } else {
      FailsOnTwo(t, p);
    }
  }

  lemma AgainSpares(t: EventType, t': EventType, p: seq<Source>)
    requires t' != t || |p| <= 1
    ensures PlanSpares(Again(t', p), t)
  {
    var acts := Again(t', p).call.actions;
    assert ActionSpares(acts.first, t) && ActionsSpare(acts.rest, t);
    assert ActionsSpare(acts, t);
  }

  lemma FailsOnTwo(t: EventType, p: seq<Source>)
    requires Distinct(p) && |p| >= 2
    ensures exists r, path :: Inv(r) && Distinct(path) && !Exact(r, path, t, Again(t, p))
  {
    hide Inv, Dispatch;
    var r := Two(t, p[0], p[1], 2, 0, []);
    TwoIsInv(t, p[0], p[1]);
    NestedDispatchMissesParent(t, p[0], p[1], p);
    assert Inv(r) && !Exact(r, p, t, Again(t, p));
  }
}
