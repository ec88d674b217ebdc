/** Dispatching an event through `dispatchEvent` and `fireListeners_`, with callbacks that may
    listen, unlisten and dispatch while the dispatch runs.

    What the callbacks do is an argument: a plan lists, call by call, the actions of each
    callback that fires, nested dispatches with plans of their own. Every run that ends is
    described by some plan, so a statement for all plans is a statement about all such runs.
    When a plan is used up, callbacks do nothing and return nothing. */
module EventDispatch {
  import opened EventModel
  import opened Wrappers

  datatype Action =
    | DoListen(slot: Slot, callback: Callback, handler: Handler)
    | DoListenOnce(slot: Slot, callback: Callback, handler: Handler)
    | DoUnlisten(slot: Slot, callback: Callback, handler: Handler)
    | DoUnlistenByKey(key: Key)
    | DoRemoveAll(src: Source, ofType: Option<EventType>, inPhase: Option<bool>)
    | DoDispatch(path: seq<Source>, typ: EventType, plan: Plan)

  datatype Actions = Done | Then(first: Action, rest: Actions)

  /** One call of a callback: what it does, and how it ends. */
  datatype Call = Call(actions: Actions, returnsFalse: bool, stops: bool, prevents: bool, throws: bool)

  datatype Plan = Quiet | Next(call: Call, later: Plan)

  const QUIET_CALL := Call(Done, false, false, false, false)

  // ----- sizes, for termination

  function ActionSize(a: Action): nat {
    if a.DoDispatch? then 1 + PlanSize(a.plan) else 1
  }

  function ActionsSize(acts: Actions): nat {
    match acts
    case Done => 1
    case Then(a, rest) => 1 + ActionSize(a) + ActionsSize(rest)
  }

  function PlanSize(p: Plan): nat {
    match p
    case Quiet => 0
    case Next(call, later) => 1 + ActionsSize(call.actions) + PlanSize(later)
  }

  // ----- locking an array while its listeners fire

  function Lock(r: Registry, s: Slot): Registry
    requires HasArray(r, s)
  {
    var node := r.phases[s.phase];
    r.(phases := r.phases[s.phase := node.(remaining := node.remaining - 1)],
       arrays := r.arrays[s := r.arrays[s].(locked := r.arrays[s].locked + 1)])
  }

  function Release(r: Registry, s: Slot): Registry
    requires s in r.arrays && r.arrays[s].locked > 0
  {
    r.(arrays := r.arrays[s := r.arrays[s].(locked := r.arrays[s].locked - 1)])
  }

  /** The test cannot fail, see `EventSafety.LockedRun`. */
  function Unlock(r: Registry, s: Slot): Registry {
    if HasArray(r, s) && r.arrays[s].locked > 0 then CleanUp(Release(r, s), s) else r
  }

  // ----- a dispatch in progress

  /** `ok` is the result so far, `returnValue` and `stopped` belong to the event object. */
  datatype Run = Run(reg: Registry, plan: Plan, ok: bool, stopped: bool, returnValue: bool, thrown: bool)

  function NextCall(p: Plan): Call {
    if p.Next? then p.call else QUIET_CALL
  }

  function Later(p: Plan): Plan {
    if p.Next? then p.later else Quiet
  }

  function Fired(r: Registry, k: Key): Registry {
    r.(fired := r.fired + [k])
  }

  /** After the callback of k has returned: a call-once listener is removed. */
  function AfterCall(r: Registry, k: Key): Registry {
    if k in r.records && r.records[k].callOnce then UnlistenByKey(r, k).0 else r
  }

  function RunActions(r: Registry, acts: Actions): Registry
    decreases ActionsSize(acts), 0
  {
    match acts
    case Done => r
    case Then(a, rest) => RunActions(RunAction(r, a), rest)
  }

  function RunAction(r: Registry, a: Action): Registry
    decreases ActionSize(a), 0
  {
    match a
    case DoListen(s, f, h) => Listen(r, s, f, h).0
    case DoListenOnce(s, f, h) => ListenOnce(r, s, f, h).0
    case DoUnlisten(s, f, h) => Unlisten(r, s, f, h).0
    case DoUnlistenByKey(k) => UnlistenByKey(r, k).0
    case DoRemoveAll(x, t, c) => RemoveAll(r, x, t, c).0
    case DoDispatch(path, t, plan) => Dispatch(r, path, t, plan, true).reg
  }

  /** One callback is called and returns, or throws. */
  function CallNext(d: Run, k: Key): (d': Run)
    ensures PlanSize(d'.plan) <= PlanSize(d.plan)
    decreases PlanSize(d.plan), 0
  {
    var call := NextCall(d.plan);
    var r := if d.plan.Next? then RunActions(Fired(d.reg, k), call.actions) else Fired(d.reg, k);
    if call.throws then d.(reg := r, plan := Later(d.plan), thrown := true)
    else
      d.(reg := AfterCall(r, k), plan := Later(d.plan),
         ok := d.ok && !call.returnsFalse,
         stopped := d.stopped || call.stops,
         returnValue := d.returnValue && !call.prevents)
  }

  /** Fires the records i to n - 1 of a locked array; `ok` of the result is what they returned. */
  function FireFrom(d: Run, s: Slot, i: nat, n: nat): (d': Run)
    ensures PlanSize(d'.plan) <= PlanSize(d.plan)
    decreases PlanSize(d.plan), 1, n - i
  {
    if i >= n || d.thrown || s !in d.reg.arrays || i >= |d.reg.arrays[s].items| then d
    else
      var k := d.reg.arrays[s].items[i];
      FireFrom(if Live(d.reg, k) then CallNext(d, k) else d, s, i + 1, n)
  }

  /** `fireListeners_`: the array is unlocked and compacted even when a callback throws. */
  function FireListeners(d: Run, s: Slot): (d': Run)
    ensures PlanSize(d'.plan) <= PlanSize(d.plan)
    decreases PlanSize(d.plan), 2
  {
    if !HasArray(d.reg, s) then d.(ok := true)
    else
      var r := Lock(d.reg, s);
      var d1 := FireFrom(d.(reg := r, ok := true), s, 0, |r.arrays[s].items|);
      d1.(reg := Unlock(d1.reg, s))
  }

  function Remaining(r: Registry, p: Phase): int {
    if p in r.phases then r.phases[p].remaining else 0
  }

  /** The walk over the sources of one phase. `counted` says whether the walk is cut short when
      `remaining_` reaches zero, as the source does, or goes on to the end. */
  function Walk(d: Run, p: Phase, order: seq<Source>, h: nat, counted: bool): (d': Run)
    ensures PlanSize(d'.plan) <= PlanSize(d.plan)
    decreases PlanSize(d.plan), 3, |order| - h
  {
    if d.stopped || d.thrown || h >= |order| || (counted && Remaining(d.reg, p) == 0) then d
    else
      var d1 := FireListeners(d, Slot(p, order[h]));
      Walk(d1.(ok := d.ok && d1.ok && d1.returnValue), p, order, h + 1, counted)
  }

  function Reverse(s: seq<Source>): (r: seq<Source>)
    ensures |r| == |s| && forall i :: 0 <= i < |s| ==> r[i] == s[|s| - 1 - i]
  {
    if s == [] then [] else Reverse(s[1..]) + [s[0]]
  }

  function ResetRemaining(r: Registry, p: Phase): Registry
    requires p in r.phases
  {
    r.(phases := r.phases[p := r.phases[p].(remaining := r.phases[p].count)])
  }

  /** One phase of a dispatch, when the type has listeners in that phase. */
  function DispatchPhase(d: Run, p: Phase, order: seq<Source>, counted: bool): (d': Run)
    ensures PlanSize(d'.plan) <= PlanSize(d.plan)
    decreases PlanSize(d.plan), 4
  {
    if d.thrown || p !in d.reg.phases then d
    else Walk(d.(reg := ResetRemaining(d.reg, p)), p, order, 0, counted)
  }

  /** `dispatchEvent` on a target whose chain of parents, target first, is `path`. */
  function Dispatch(r: Registry, path: seq<Source>, t: EventType, plan: Plan, counted: bool): (d: Run)
    decreases PlanSize(plan), 5
  {
    var d0 := Run(r, plan, true, false, true, false);
    if t !in r.types then d0
    else
      var d1 := DispatchPhase(d0, Phase(t, true), Reverse(path), counted);
      DispatchPhase(d1, Phase(t, false), path, counted)
  }
}
