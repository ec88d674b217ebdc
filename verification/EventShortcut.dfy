/** The theorem on `remaining_`, and what a dispatch fires when the callbacks leave the
    registry alone. */
module EventShortcut {
  import opened EventModel
  import opened EventInvariants
  import opened EventDispatch
  import opened EventSafety
  import opened EventWalk

  /** The sources of the phase that the walk has not visited before step h. */
  function Unvisited(r: Registry, p: Phase, order: seq<Source>, h: nat): set<Slot>
    requires h <= |order|
  {
    set s | s in Slots(r, p) && s.src !in order[..h]
  }

  /** What `remaining_` promises before step h of a walk. */
  ghost predicate Covers(r: Registry, p: Phase, order: seq<Source>, h: nat)
    requires h <= |order|
  {
    p in r.phases ==> Remaining(r, p) >= |Unvisited(r, p, order, h)|
  }

  lemma IdleStep(d: Run, s: Slot)
    requires s !in d.reg.arrays
    ensures FireListeners(d, s) == d.(ok := true)
  {
  }

  /** Sources without listeners do not change a walk. */
  lemma {:induction false} IdleWalk(d: Run, p: Phase, order: seq<Source>, h: nat)
    requires h <= |order| && (d.ok ==> d.returnValue)
    requires forall j :: h <= j < |order| ==> Slot(p, order[j]) !in d.reg.arrays
    ensures Walk(d, p, order, h, false) == d
    decreases |order| - h
  {
    hide FireListeners;
    if h < |order| && !d.stopped && !d.thrown {
      IdleStep(d, Slot(p, order[h]));
      IdleWalk(d, p, order, h + 1);
    }
  }

  lemma NothingLeft(r: Registry, p: Phase, order: seq<Source>, h: nat)
    requires Inv(r) && h <= |order| && Distinct(order) && Covers(r, p, order, h) && Remaining(r, p) == 0
    ensures forall j :: h <= j < |order| ==> Slot(p, order[j]) !in r.arrays
  {
    hide RecordsOk, IndexesOk, SourcesOk, ArraysOk;
    if p in r.phases {
      assert Unvisited(r, p, order, h) == {};
      forall j | h <= j < |order| ensures Slot(p, order[j]) !in r.arrays {
        assert order[j] !in order[..h];
        assert Slot(p, order[j]) !in Unvisited(r, p, order, h);
      }
    }
  }

  // ----- one step of the walk keeps the promise

  lemma LockCovers(r: Registry, p: Phase, order: seq<Source>, h: nat)
    requires h < |order| && Distinct(order) && HasArray(r, Slot(p, order[h])) && Covers(r, p, order, h)
    ensures Covers(Lock(r, Slot(p, order[h])), p, order, h + 1)
  {
    var s := Slot(p, order[h]);
    var r' := Lock(r, s);
    assert r'.arrays.Keys == r.arrays.Keys;
    assert order[h] !in order[..h];
    assert order[..h + 1] == order[..h] + [order[h]];
    assert s in Unvisited(r, p, order, h);
    assert Unvisited(r', p, order, h + 1) == Unvisited(r, p, order, h) - {s};
  }

  lemma GainsCover(r: Registry, r': Registry, p: Phase, order: seq<Source>, h: nat)
    requires h <= |order| && p in r.phases && Covers(r, p, order, h) && Gains(r, r', p)
    ensures Covers(r', p, order, h)
  {
    var new_ := Slots(r', p) - Slots(r, p);
    SubsetSize(Unvisited(r', p, order, h), Unvisited(r, p, order, h) + new_);
  }

  /** After a nested dispatch of the same type the visited source s makes up for the one that
      `remaining_` may lack. */
  lemma SufficesCover(r: Registry, r': Registry, p: Phase, order: seq<Source>, h: nat, s: Slot)
    requires h <= |order| && p in r.phases && Covers(r, p, order, h) && Suffices(r, r', p)
    requires s in Slots(r', p) && s.src in order[..h]
    ensures Covers(r', p, order, h)
  {
    if Gains(r, r', p) {
      GainsCover(r, r', p, order, h);
    } else {
      SubsetSize(Unvisited(r', p, order, h), Slots(r', p) - {s});
    }
  }

  lemma SkipCovers(r: Registry, p: Phase, order: seq<Source>, h: nat)
    requires h < |order| && Slot(p, order[h]) !in r.arrays && Covers(r, p, order, h)
    ensures Covers(r, p, order, h + 1)
  {
    assert Unvisited(r, p, order, h + 1) == Unvisited(r, p, order, h) by {
      assert order[..h + 1] == order[..h] + [order[h]];
    }
  }

  lemma StepCovers(d: Run, p: Phase, order: seq<Source>, h: nat)
    requires Inv(d.reg) && PlanSpares(d.plan, p.typ)
    requires h < |order| && Distinct(order) && Covers(d.reg, p, order, h)
    ensures var d' := FireListeners(d, Slot(p, order[h]));
      Inv(d'.reg) && PlanSpares(d'.plan, p.typ) && Covers(d'.reg, p, order, h + 1)
  {
    hide Inv, Evolves, Gains, Suffices, Locked, Covers, Lock, Unlock, FireFrom, FireSafe, ListenersSafe, PlanSpares;
    var s := Slot(p, order[h]);
    ListenersKeep(d, s);
    if HasArray(d.reg, s) {
      LockKeeps(d.reg, s);
      LockHasArray(d.reg, s);
      LockCovers(d.reg, p, order, h);
      var r := Lock(d.reg, s);
      var d0 := d.(reg := r, ok := true);
      var n := |r.arrays[s].items|;
      var d1 := FireFrom(d0, s, 0, n);
      FireKeeps(d0, s, 0, n);
      LockTakes(d.reg, s);
      FireSuffices(d0, s, 0, n, s);
      PhaseStays(r, d1.reg, s);
      LockedIsSlot(d1.reg, s);
      assert order[h] == order[..h + 1][h];
      SufficesCover(r, d1.reg, p, order, h + 1, s);
      LockedRun(d.reg, s, d1.reg);
      UnlockCovers(d1.reg, s, p, order, h + 1);
    } else {
      ArraysHaveParents(d.reg, s);
      SkipCovers(d.reg, p, order, h);
    }
  }

  lemma LockedIsSlot(r: Registry, s: Slot)
    requires Locked(r, s) > 0
    ensures s in Slots(r, s.phase)
  {
  }

  lemma LockTakes(r: Registry, s: Slot)
    requires HasArray(r, s)
    ensures Locked(Lock(r, s), s) > 0
  {
  }

  lemma ArraysHaveParents(r: Registry, s: Slot)
    requires Inv(r) && !HasArray(r, s)
    ensures s !in r.arrays
  {
    hide RecordsOk, IndexesOk, SourcesOk, ArraysOk;
  }

  lemma UnlockCovers(r: Registry, s: Slot, p: Phase, order: seq<Source>, h: nat)
    requires h <= |order| && p in r.phases && Covers(r, p, order, h)
    ensures Covers(Unlock(r, s), p, order, h)
  {
    hide Covers, Gains, Unlock;
    if p in Unlock(r, s).phases {
      UnlockGains(r, s, p);
      GainsCover(r, Unlock(r, s), p, order, h);
    } else {
      NoPhaseCovers(Unlock(r, s), p, order, h);
    }
  }

  lemma NoPhaseCovers(r: Registry, p: Phase, order: seq<Source>, h: nat)
    requires h <= |order| && p !in r.phases
    ensures Covers(r, p, order, h)
  {
  }

  // ----- the theorem

  /** The counted walk and the full walk agree on everything: the callbacks fired and their
      order, the registry, the event flags and the result. */
  lemma {:induction false} WalkShortcut(d: Run, p: Phase, order: seq<Source>, h: nat)
    requires Inv(d.reg) && PlanSpares(d.plan, p.typ) && (d.ok ==> d.returnValue)
    requires h <= |order| && Distinct(order) && Covers(d.reg, p, order, h)
    ensures var d' := Walk(d, p, order, h, true);
      && Walk(d, p, order, h, false) == d'
      && Inv(d'.reg) && PlanSpares(d'.plan, p.typ) && (d'.ok ==> d'.returnValue)
    decreases |order| - h
  {
    hide Inv, Covers, PlanSpares, FireListeners, Remaining;
    if d.stopped || d.thrown || h >= |order| {
    } else if Remaining(d.reg, p) == 0 {
      NothingLeft(d.reg, p, order, h);
      IdleWalk(d, p, order, h);
    } else {
      StepCovers(d, p, order, h);
      var d1 := FireListeners(d, Slot(p, order[h]));
      WalkShortcut(d1.(ok := d.ok && d1.ok && d1.returnValue), p, order, h + 1);
    }
  }

  lemma ResetCovers(r: Registry, p: Phase, order: seq<Source>)
    requires Inv(r) && p in r.phases
    ensures Covers(ResetRemaining(r, p), p, order, 0)
  {
    hide RecordsOk, IndexesOk, SourcesOk, ArraysOk;
    SubsetSize(Unvisited(r, p, order, 0), Slots(r, p));
    assert ResetRemaining(r, p).arrays.Keys == r.arrays.Keys;
  }

  lemma PhaseShortcut(d: Run, p: Phase, order: seq<Source>)
    requires Inv(d.reg) && PlanSpares(d.plan, p.typ) && (d.ok ==> d.returnValue) && Distinct(order)
    ensures var d' := DispatchPhase(d, p, order, true);
      && DispatchPhase(d, p, order, false) == d'
      && Inv(d'.reg) && PlanSpares(d'.plan, p.typ) && (d'.ok ==> d'.returnValue)
  {
    hide Inv, Covers, PlanSpares, Walk, ResetRemaining, Distinct;
    if !d.thrown && p in d.reg.phases {
      ResetKeeps(d.reg, p);
      ResetCovers(d.reg, p, order);
      WalkShortcut(d.(reg := ResetRemaining(d.reg, p)), p, order, 0);
    }
  }

  /** `dispatchEvent` with its shortcut does what a walk over all ancestors does, for every
      registry and every behaviour of the callbacks in which none of them, at any depth,
      dispatches the same event type along a chain of two sources or more. (A chain of parents
      has no repetitions.) See EventNested.dfy for such a dispatch. */
  lemma DispatchShortcut(r: Registry, path: seq<Source>, t: EventType, plan: Plan)
    requires Inv(r) && Distinct(path) && PlanSpares(plan, t)
    ensures Dispatch(r, path, t, plan, true) == Dispatch(r, path, t, plan, false)
  {
    hide Inv, PlanSpares, DispatchPhase;
    var d0 := Run(r, plan, true, false, true, false);
    assert Distinct(Reverse(path));
    PhaseShortcut(d0, Phase(t, true), Reverse(path));
    PhaseShortcut(DispatchPhase(d0, Phase(t, true), Reverse(path), true), Phase(t, false), path);
  }

  // ----- what fires when the callbacks leave the registry alone

  /** The live listeners of the phase, source by source along `order`, in order of registration. */
  function Heard(r: Registry, p: Phase, order: seq<Source>): seq<Key> {
    if order == [] then []
    else
      var s := Slot(p, order[0]);
      (if s in r.arrays then LiveItems(r, r.arrays[s].items) else []) + Heard(r, p, order[1..])
  }

  function WithRemaining(r: Registry, p: Phase, n: int): Registry
    requires p in r.phases
  {
    r.(phases := r.phases[p := r.phases[p].(remaining := n)])
  }

  predicate NoneOnce(r: Registry) {
    forall k :: k in r.records ==> !r.records[k].callOnce
  }

  lemma QuietCall(d: Run, k: Key)
    requires d.plan == Quiet && NoneOnce(d.reg)
    ensures CallNext(d, k) == d.(reg := d.reg.(fired := d.reg.fired + [k]))
  {
  }

  lemma {:induction false} QuietFire(d: Run, s: Slot, i: nat, n: nat)
    requires d.plan == Quiet && !d.thrown && s in d.reg.arrays && i <= n == |d.reg.arrays[s].items| && NoneOnce(d.reg)
    ensures FireFrom(d, s, i, n) ==
      d.(reg := d.reg.(fired := d.reg.fired + LiveItems(d.reg, d.reg.arrays[s].items[i..])))
    decreases n - i
  {
    hide CallNext, LiveItems, FireFrom, Live;
    var items := d.reg.arrays[s].items;
    FireStep(d, s, i, n);
    LiveStep(d.reg, items, i, d.reg.fired);
    if i < n {
      var k := items[i];
      QuietCall(d, k);
      var d1 := if Live(d.reg, k) then CallNext(d, k) else d;
      QuietFire(d1, s, i + 1, n);
      SameLive(d.reg, d1.reg, items[i + 1..]);
    }
  }

  lemma FireStep(d: Run, s: Slot, i: nat, n: nat)
    requires !d.thrown && s in d.reg.arrays && n == |d.reg.arrays[s].items|
    ensures FireFrom(d, s, i, n) == if i >= n then d else
      var k := d.reg.arrays[s].items[i];
      FireFrom(if Live(d.reg, k) then CallNext(d, k) else d, s, i + 1, n)
  {
    hide CallNext, Live;
  }

  lemma LiveStep(r: Registry, items: seq<Key>, i: nat, fired: seq<Key>)
    requires i <= |items|
    ensures fired + LiveItems(r, items[i..]) ==
      if i == |items| then fired
      else (if Live(r, items[i]) then fired + [items[i]] else fired) + LiveItems(r, items[i + 1..])
  {
    hide Live;
    if i < |items| {
      assert items[i..] == [items[i]] + items[i + 1..];
      var first := if Live(r, items[i]) then [items[i]] else [];
      assert fired + (first + LiveItems(r, items[i + 1..])) == fired + first + LiveItems(r, items[i + 1..]);
    }
  }

  lemma {:induction false} SameLive(r: Registry, r': Registry, items: seq<Key>)
    requires r.records == r'.records
    ensures LiveItems(r, items) == LiveItems(r', items)
  {
    if items != [] {
      SameLive(r, r', items[1..]);
    }
  }

  lemma QuietListeners(d: Run, s: Slot)
    requires d.plan == Quiet && !d.thrown && HasArray(d.reg, s) && NoneOnce(d.reg)
    requires d.reg.arrays[s].needsCleanup ==> d.reg.arrays[s].locked > 0
    ensures FireListeners(d, s) == d.(ok := true, reg :=
      WithRemaining(d.reg, s.phase, d.reg.phases[s.phase].remaining - 1).(
        fired := d.reg.fired + LiveItems(d.reg, d.reg.arrays[s].items)))
  {
    var r := Lock(d.reg, s);
    var items := r.arrays[s].items;
    QuietFire(d.(reg := r, ok := true), s, 0, |items|);
    assert items[0..] == items;
    SameLive(d.reg, r, items);
    var r1 := r.(fired := r.fired + LiveItems(r, items));
    assert Release(r1, s).arrays == d.reg.arrays;
  }

  /** From d to d' the keys have fired, and nothing else has changed but `remaining_`. */
  predicate FiredOnly(d: Run, d': Run, p: Phase, keys: seq<Key>) {
    && p in d.reg.phases
    && d' == d.(reg := WithRemaining(d.reg, p, Remaining(d'.reg, p)).(fired := d.reg.fired + keys))
  }

  lemma FiredOnlyTransitive(a: Run, b: Run, c: Run, p: Phase, j: seq<Key>, k: seq<Key>)
    requires FiredOnly(a, b, p, j) && FiredOnly(b, c, p, k)
    ensures FiredOnly(a, c, p, j + k)
  {
    assert a.reg.fired + j + k == a.reg.fired + (j + k);
  }

  /** A full walk with quiet callbacks. */
  lemma {:induction false} QuietWalk(d: Run, p: Phase, order: seq<Source>, h: nat)
    requires d.plan == Quiet && d.ok && !d.thrown && !d.stopped && d.returnValue && p in d.reg.phases && h <= |order|
    requires Inv(d.reg) && NoneOnce(d.reg)
    ensures FiredOnly(d, Walk(d, p, order, h, false), p, Heard(d.reg, p, order[h..]))
    decreases |order| - h
  {
    hide Inv, FireListeners, Heard, LiveItems;
    HeardUnfold(d.reg, p, order, h);
    if h < |order| {
      var s := Slot(p, order[h]);
      var d1 := QuietVisit(d, s);
      hide FiredOnly;
      SameHeard(d.reg, d1.reg, p, order[h + 1..]);
      QuietWalk(d1, p, order, h + 1);
      FiredOnlyTransitive(d, d1, Walk(d1, p, order, h + 1, false), p, 
        if s in d.reg.arrays then LiveItems(d.reg, d.reg.arrays[s].items) else [], Heard(d.reg, p, order[h + 1..]));
    }
  }

  lemma QuietVisit(d: Run, s: Slot) returns (d1: Run)
    requires d.plan == Quiet && d.ok && !d.thrown && !d.stopped && d.returnValue && s.phase in d.reg.phases
    requires Inv(d.reg) && NoneOnce(d.reg)
    ensures d1 == FireListeners(d, s) && Inv(d1.reg) && d1.reg.records == d.reg.records && d1.reg.arrays == d.reg.arrays
    ensures FiredOnly(d, d1, s.phase, if s in d.reg.arrays then LiveItems(d.reg, d.reg.arrays[s].items) else [])
  {
    hide Inv, FireListeners, LiveItems;
    d1 := FireListeners(d, s);
    if s in d.reg.arrays {
      QuietArray(d.reg, s);
      QuietListeners(d, s);
      ListenersKeep(d, s);
    } else {
      IdleStep(d, s);
    }
  }

  lemma QuietArray(r: Registry, s: Slot)
    requires Inv(r) && s in r.arrays
    ensures HasArray(r, s) && (r.arrays[s].needsCleanup ==> r.arrays[s].locked > 0)
  {
    hide RecordsOk, IndexesOk, SourcesOk;
    assert ArrayOk(r, s, r.arrays[s]);
  }

  lemma HeardUnfold(r: Registry, p: Phase, order: seq<Source>, h: nat)
    requires h <= |order|
    ensures Heard(r, p, order[h..]) ==
      if h == |order| then []
      else
        var s := Slot(p, order[h]);
        (if s in r.arrays then LiveItems(r, r.arrays[s].items) else []) + Heard(r, p, order[h + 1..])
  {
    if h < |order| {
      assert order[h..][1..] == order[h + 1..];
    }
  }

  lemma {:induction false} SameHeard(r: Registry, r': Registry, p: Phase, order: seq<Source>)
    requires r.records == r'.records && r.arrays == r'.arrays
    ensures Heard(r, p, order) == Heard(r', p, order)
  {
    if order != [] {
      SameHeard(r, r', p, order[1..]);
      var s := Slot(p, order[0]);
      if s in r.arrays {
        SameLive(r, r', r.arrays[s].items);
      }
    }
  }

  lemma QuietPhase(d: Run, p: Phase, order: seq<Source>) returns (d': Run)
    requires d.plan == Quiet && d.ok && !d.thrown && !d.stopped && d.returnValue
    requires Inv(d.reg) && NoneOnce(d.reg) && Distinct(order)
    ensures d' == DispatchPhase(d, p, order, true) && Inv(d'.reg) && NoneOnce(d'.reg)
    ensures d' == d.(reg := d.reg.(phases := d'.reg.phases, fired := d.reg.fired + Heard(d.reg, p, order)))
  {
    hide Inv, Heard, Walk;
    d' := DispatchPhase(d, p, order, true);
    PhaseKeeps(d, p, order);
    PhaseShortcut(d, p, order);
    if p in d.reg.phases {
      var d0 := d.(reg := ResetRemaining(d.reg, p));
      ResetKeeps(d.reg, p);
      QuietWalk(d0, p, order, 0);
      assert order[0..] == order;
      SameHeard(d.reg, d0.reg, p, order);
    } else {
      NoPhaseSilent(d.reg, p, order);
    }
  }

  lemma {:induction false} NoPhaseSilent(r: Registry, p: Phase, order: seq<Source>)
    requires Inv(r) && p !in r.phases
    ensures Heard(r, p, order) == []
  {
    hide RecordsOk, IndexesOk, SourcesOk, ArraysOk;
    if order != [] {
      NoPhaseSilent(r, p, order[1..]);
    }
  }

  /** When the callbacks leave the registry and the event alone, `dispatchEvent` fires the
      capture listeners from the root down to the target, then the bubble listeners from the
      target up, each source's in order of registration; it returns true and changes no index. */
  lemma QuietDispatch(r: Registry, path: seq<Source>, t: EventType) returns (d: Run)
    requires Inv(r) && NoneOnce(r) && Distinct(path)
    ensures d == Dispatch(r, path, t, Quiet, true) && d.ok
    ensures d.reg == r.(phases := d.reg.phases,
      fired := r.fired + Heard(r, Phase(t, true), Reverse(path)) + Heard(r, Phase(t, false), path))
  {
    hide Inv, Heard, DispatchPhase, NoneOnce;
    assert Distinct(Reverse(path));
    d := Dispatch(r, path, t, Quiet, true);
    var d0 := Run(r, Quiet, true, false, true, false);
    if t in r.types {
      var d1 := QuietPhase(d0, Phase(t, true), Reverse(path));
      SameHeard(r, d1.reg, Phase(t, false), path);
      var d2 := QuietPhase(d1, Phase(t, false), path);
    } else {
      NoTypeSilent(r, t, path);
    }
  }

  lemma NoTypeSilent(r: Registry, t: EventType, path: seq<Source>)
    requires Inv(r) && t !in r.types
    ensures Heard(r, Phase(t, true), Reverse(path)) == [] && Heard(r, Phase(t, false), path) == []
  {
    hide RecordsOk, IndexesOk, SourcesOk, ArraysOk, Heard;
    NoPhaseSilent(r, Phase(t, true), Reverse(path));
    NoPhaseSilent(r, Phase(t, false), path);
  }
}
