/** Whose turn comes in a dispatch whose callbacks do change registrations: no listener that
    stays is passed over, and none that comes while its array fires is called. */
module EventTurns {
  import opened EventModel
  import opened EventInvariants
  import opened EventDispatch
  import opened EventSafety
  import opened EventWalk
  import opened EventShortcut
  import opened EventQuiet
  import opened Wrappers

  /** The keys fired between two states. */
  function FiredSince(r: Registry, r': Registry): seq<Key>
    requires r.fired <= r'.fired
  {
    r'.fired[|r.fired|..]
  }

  lemma FiredByEither(a: Registry, b: Registry, c: Registry)
    requires a.fired <= b.fired && b.fired <= c.fired
    ensures FiredSince(a, c) == FiredSince(a, b) + FiredSince(b, c)
  {
  }

  // ----- no listener that stays is passed over

  lemma LiveBefore(r: Registry, r': Registry, k: Key)
    requires Evolves(r, r') && k in r.records && Live(r', k)
    ensures Live(r, k)
  {
    assert SameRecord(r.records[k], r'.records[k]);
  }

  lemma StaysAt(r: Registry, r': Registry, s: Slot, j: nat)
    requires Evolves(r, r') && Locked(r, s) > 0 && j < |r.arrays[s].items|
    ensures Locked(r', s) > 0 && j < |r'.arrays[s].items| && r'.arrays[s].items[j] == r.arrays[s].items[j]
  {
    assert Locked(r, s) == Locked(r', s);
    assert r.arrays[s].items <= r'.arrays[s].items;
  }

  lemma CallFires(d: Run, k: Key)
    requires Inv(d.reg)
    ensures var r := CallNext(d, k).reg; d.reg.fired <= r.fired && k in FiredSince(d.reg, r)
  {
    hide Inv, RunActions, ActionsSafe, UnlistenByKey, RecordsGrow, LocksKept;
    var r := Fired(d.reg, k);
    FiredKeeps(d.reg, k);
    if d.plan.Next? {
      ActionsKeep(r, d.plan.call.actions);
      r := RunActions(r, d.plan.call.actions);
    }
    UnlistenByKeyKeeps(r, k);
    assert r.fired <= UnlistenByKey(r, k).0.fired;
    assert CallNext(d, k).reg.fired[|d.reg.fired|] == k;
  }

  lemma FiredGrows(r: Registry, r': Registry)
    requires Evolves(r, r')
    ensures r.fired <= r'.fired
  {
  }

  lemma {:induction false} FireReaches(d: Run, s: Slot, i: nat, n: nat, j: nat)
    requires Inv(d.reg) && Locked(d.reg, s) > 0 && i <= j < n <= |d.reg.arrays[s].items|
    ensures var r, k := FireFrom(d, s, i, n).reg, d.reg.arrays[s].items[j];
      && d.reg.fired <= r.fired
      && (!FireFrom(d, s, i, n).thrown && Live(r, k) ==> k in FiredSince(d.reg, r))
    decreases n - i
  {
    hide Inv, Evolves, CallNext, Live, FireSafe, ActionsSafe;
    var k := d.reg.arrays[s].items[j];
    FireKeeps(d, s, i, n);
    FiredGrows(d.reg, FireFrom(d, s, i, n).reg);
    if !d.thrown {
      var d1 := d;
      if Live(d.reg, d.reg.arrays[s].items[i]) {
        d1 := CallNext(d, d.reg.arrays[s].items[i]);
        CallKeeps(d, d.reg.arrays[s].items[i]);
        CallFires(d, d.reg.arrays[s].items[i]);
        StaysAt(d.reg, d1.reg, s, j);
        StaysAt(d.reg, d1.reg, s, n - 1);
      }
      FireKeeps(d1, s, i + 1, n);
      FiredGrows(d1.reg, FireFrom(d1, s, i + 1, n).reg);
      FiredByEither(d.reg, d1.reg, FireFrom(d1, s, i + 1, n).reg);
      if i < j {
        FireReaches(d1, s, i + 1, n, j);
      } else if Live(FireFrom(d1, s, i + 1, n).reg, k) {
        ItsRecordIsKnown(d.reg, s, j);
        LiveBefore(d.reg, FireFrom(d, s, i, n).reg, k);
      }
    }
  }

  lemma ItsRecordIsKnown(r: Registry, s: Slot, j: nat)
    requires Inv(r) && s in r.arrays && j < |r.arrays[s].items|
    ensures r.arrays[s].items[j] in r.records
  {
    assert ArrayOk(r, s, r.arrays[s]);
    assert r.arrays[s].items[j] in r.arrays[s].items;
  }

  lemma LiveHasPlace(r: Registry, k: Key) returns (j: nat)
    requires Inv(r) && Live(r, k)
    ensures var s := r.records[k].slot; HasArray(r, s) && j < |r.arrays[s].items| && r.arrays[s].items[j] == k
  {
    assert Indexed(r, k);
    var s := r.records[k].slot;
    assert s in r.arrays.Keys;
    j :| 0 <= j < |r.arrays[s].items| && r.arrays[s].items[j] == k;
  }

  lemma UnlockKeepsRecords(r: Registry, s: Slot)
    ensures Unlock(r, s).records == r.records && Unlock(r, s).fired == r.fired
  {
  }

  /** Firing an array calls each of its listeners that is still there afterwards. */
  lemma ListenersReach(d: Run, k: Key)
    requires Inv(d.reg) && Live(d.reg, k)
    ensures var d' := FireListeners(d, d.reg.records[k].slot);
      && d.reg.fired <= d'.reg.fired
      && (!d'.thrown && Live(d'.reg, k) ==> k in FiredSince(d.reg, d'.reg))
  {
    hide Inv, Evolves, FireFrom, Unlock, ListenersSafe;
    var s := d.reg.records[k].slot;
    var j := LiveHasPlace(d.reg, k);
    LockKeeps(d.reg, s);
    Locks(d.reg, s);
    var d0 := d.(reg := Lock(d.reg, s), ok := true);
    var n := |d0.reg.arrays[s].items|;
    FireReaches(d0, s, 0, n, j);
    UnlockKeepsRecords(FireFrom(d0, s, 0, n).reg, s);
  }

  lemma {:induction false} WalkReaches(d: Run, p: Phase, order: seq<Source>, h: nat, k: Key)
    requires Inv(d.reg) && Live(d.reg, k) && d.reg.records[k].slot.phase == p
    requires h <= |order| && d.reg.records[k].slot.src in order[h..]
    ensures var d' := Walk(d, p, order, h, false);
      && Inv(d'.reg) && Evolves(d.reg, d'.reg)
      && (!d'.thrown && !d'.stopped && Live(d'.reg, k) ==> k in FiredSince(d.reg, d'.reg))
    decreases |order| - h
  {
    hide Inv, Evolves, FireListeners, ListenersSafe, FiredSince;
    EvolvesReflexive(d.reg);
    FiredGrows(d.reg, d.reg);
    if !d.stopped && !d.thrown {
      var s := Slot(p, order[h]);
      var d1 := WithResult(d, FireListeners(d, s));
      var d' := Walk(d1, p, order, h + 1, false);
      ListenersKeep(d, s);
      FullWalkKeeps(d1, p, order, h + 1);
      EvolvesTransitive(d.reg, d1.reg, d'.reg);
      FiredGrows(d.reg, d1.reg);
      FiredGrows(d1.reg, d'.reg);
      FiredByEither(d.reg, d1.reg, d'.reg);
      if !d'.thrown && !d'.stopped && Live(d'.reg, k) {
        LiveLater(d.reg, d1.reg, d'.reg, k);
        if s == d.reg.records[k].slot {
          assert !d1.thrown;
          ListenersReach(d, k);
        } else {
          assert order[h..] == [order[h]] + order[h + 1..];
          WalkReaches(d1, p, order, h + 1, k);
        }
      }
    }
  }

  lemma LiveLater(a: Registry, b: Registry, c: Registry, k: Key)
    requires Evolves(a, b) && Evolves(b, c) && Live(a, k) && Live(c, k)
    ensures Live(b, k) && b.records[k].slot == a.records[k].slot
  {
    assert SameRecord(a.records[k], b.records[k]);
    assert SameRecord(b.records[k], c.records[k]);
  }

  lemma {:induction false} FullWalkKeeps(d: Run, p: Phase, order: seq<Source>, h: nat)
    requires Inv(d.reg)
    ensures var d' := Walk(d, p, order, h, false); Inv(d'.reg) && Evolves(d.reg, d'.reg)
    decreases |order| - h
  {
    hide Inv, Evolves, FireListeners, ListenersSafe;
    EvolvesReflexive(d.reg);
    if !(d.stopped || d.thrown || h >= |order|) {
      var d1 := WithResult(d, FireListeners(d, Slot(p, order[h])));
      ListenersKeep(d, Slot(p, order[h]));
      FullWalkKeeps(d1, p, order, h + 1);
      EvolvesTransitive(d.reg, d1.reg, Walk(d1, p, order, h + 1, false).reg);
    }
  }

  lemma {:induction false} StoppedStays(d: Run, p: Phase, order: seq<Source>)
    requires d.stopped || d.thrown
    ensures var d' := DispatchPhase(d, p, order, true); d'.stopped == d.stopped && d'.thrown == d.thrown
  {
  }

  lemma PhaseReaches(d: Run, p: Phase, order: seq<Source>, k: Key)
    requires Inv(d.reg) && PlanSpares(d.plan, p.typ) && (d.ok ==> d.returnValue) && Distinct(order)
    requires Live(d.reg, k) && d.reg.records[k].slot.phase == p && d.reg.records[k].slot.src in order
    ensures var d' := DispatchPhase(d, p, order, true);
      && d.reg.fired <= d'.reg.fired
      && (!d'.thrown && !d'.stopped && Live(d'.reg, k) ==> k in FiredSince(d.reg, d'.reg))
  {
    hide Inv, Evolves, Walk, PlanSpares, PhaseSafe, Distinct;
    PhaseKeeps(d, p, order);
    FiredGrows(d.reg, DispatchPhase(d, p, order, true).reg);
    PhaseShortcut(d, p, order);
    var j := LiveHasPlace(d.reg, k);
    if !d.thrown {
      ResetKeeps(d.reg, p);
      assert order[0..] == order;
      WalkReaches(d.(reg := ResetRemaining(d.reg, p)), p, order, 0, k);
    }
  }

  /** Whatever the callbacks of a dispatch do, short of dispatching the same type again along two
      sources or more: unless one throws or stops the event, every listener on the chain that was
      there before and is there afterwards has been called. */
  lemma NoneIsPassedOver(r: Registry, path: seq<Source>, t: EventType, plan: Plan, k: Key)
    requires Inv(r) && Distinct(path) && PlanSpares(plan, t)
    requires Live(r, k) && r.records[k].slot.phase.typ == t && r.records[k].slot.src in path
    ensures var d := Dispatch(r, path, t, plan, true);
      && r.fired <= d.reg.fired
      && (!d.thrown && !d.stopped && Live(d.reg, k) ==> k in FiredSince(r, d.reg))
  {
    hide Inv, Evolves, DispatchPhase, PlanSpares, DispatchSafe, PhaseSafe, FiredSince, Distinct;
    DispatchKeeps(r, path, t, plan);
    FiredGrows(r, Dispatch(r, path, t, plan, true).reg);
    TypeIsKnown(r, k);
    var s := r.records[k].slot;
    assert s.phase == Phase(t, s.phase.capture);
    var d0 := Run(r, plan, true, false, true, false);
    var down := Reverse(path);
    ReverseDistinct(path);
    var d1 := DispatchPhase(d0, Phase(t, true), down, true);
    var d2 := DispatchPhase(d1, Phase(t, false), path, true);
    PhaseKeeps(d0, Phase(t, true), down);
    PhaseShortcut(d0, Phase(t, true), down);
    PhaseKeeps(d1, Phase(t, false), path);
    FiredGrows(r, d1.reg);
    FiredGrows(d1.reg, d2.reg);
    FiredByEither(r, d1.reg, d2.reg);
    if !d2.thrown && !d2.stopped && Live(d2.reg, k) {
      if d1.stopped || d1.thrown {
        StoppedStays(d1, Phase(t, false), path);
      }
      LiveLater(r, d1.reg, d2.reg, k);
      if s.phase.capture {
        ReverseHas(path, s.src);
        PhaseReaches(d0, Phase(t, true), down, k);
      } else {
        PhaseReaches(d1, Phase(t, false), path, k);
      }
    }
  }

  /** The same for a bubble listener that comes during the capture phase. */
  lemma LatecomersBubble(r: Registry, path: seq<Source>, t: EventType, plan: Plan, k: Key)
    requires Inv(r) && Distinct(path) && PlanSpares(plan, t) && t in r.types
    requires var r1 := DispatchPhase(Run(r, plan, true, false, true, false), Phase(t, true), Reverse(path), true).reg;
      Live(r1, k) && r1.records[k].slot.phase == Phase(t, false) && r1.records[k].slot.src in path
    ensures var d := Dispatch(r, path, t, plan, true);
      && r.fired <= d.reg.fired
      && (!d.thrown && !d.stopped && Live(d.reg, k) ==> k in FiredSince(r, d.reg))
  {
    hide Inv, Evolves, DispatchPhase, PlanSpares, PhaseSafe, Live, FiredSince, Distinct;
    var d0 := Run(r, plan, true, false, true, false);
    ReverseDistinct(path);
    var d1 := DispatchPhase(d0, Phase(t, true), Reverse(path), true);
    var d2 := DispatchPhase(d1, Phase(t, false), path, true);
    PhaseKeeps(d0, Phase(t, true), Reverse(path));
    PhaseShortcut(d0, Phase(t, true), Reverse(path));
    PhaseReaches(d1, Phase(t, false), path, k);
    FiredGrows(r, d1.reg);
    FiredByEither(r, d1.reg, d2.reg);
  }

  lemma ReverseHas(path: seq<Source>, x: Source)
    requires x in path
    ensures x in Reverse(path)
  {
    var i :| 0 <= i < |path| && path[i] == x;
    assert Reverse(path)[|path| - 1 - i] == x;
  }

  lemma TypeIsKnown(r: Registry, k: Key)
    requires Inv(r) && Live(r, k)
    ensures r.records[k].slot.phase in r.phases && r.records[k].slot.phase.typ in r.types
  {
    var j := LiveHasPlace(r, k);
  }

  // ----- no listener that comes while its array fires is called

  predicate NoDispatch(acts: Actions) {
    acts.Then? ==> !acts.first.DoDispatch? && NoDispatch(acts.rest)
  }

  /** The callbacks of the plan listen, unlisten and remove, but dispatch nothing. */
  predicate Flat(plan: Plan) {
    plan.Next? ==> NoDispatch(plan.call.actions) && Flat(plan.later)
  }

  lemma {:induction false} FiresNothing(r: Registry, acts: Actions)
    requires Inv(r) && NoDispatch(acts)
    ensures RunActions(r, acts).fired == r.fired
    decreases acts
  {
    hide Inv, RunAction, ActionSafe, Evolves;
    if acts.Then? {
      ActionKeeps(r, acts.first);
      ActionFiresNothing(r, acts.first);
      FiresNothing(RunAction(r, acts.first), acts.rest);
    }
  }

  lemma ActionFiresNothing(r: Registry, a: Action)
    requires !a.DoDispatch?
    ensures RunAction(r, a).fired == r.fired
  {
    hide Listen, FirstMatch, UnlistenByKey, RemoveDown;
    match a
    case DoListen(s, f, h) => ListenFiresNothing(r, s, f, h);
    case DoListenOnce(s, f, h) => ListenFiresNothing(r, s, f, h);
    case DoUnlisten(s, f, h) =>
      if s in r.arrays && FirstMatch(r, r.arrays[s].items, f, h) < |r.arrays[s].items| {
        UnlistenFiresNothing(r, r.arrays[s].items[FirstMatch(r, r.arrays[s].items, f, h)]);
      }
    case DoUnlistenByKey(k) => UnlistenFiresNothing(r, k);
    case DoRemoveAll(x, t, c) =>
      if x in r.sources {
        RemoveFiresNothing(r, r.sources[x], t, c, 0);
      }
  }

  lemma ListenFiresNothing(r: Registry, s: Slot, f: Callback, h: Handler)
    ensures Listen(r, s, f, h).0.fired == r.fired
  {
    hide FirstMatch;
  }

  lemma UnlistenFiresNothing(r: Registry, k: Key)
    ensures UnlistenByKey(r, k).0.fired == r.fired
  {
  }

  lemma {:induction false} RemoveFiresNothing(
    r: Registry, keys: seq<Key>, t: Option<EventType>, c: Option<bool>, d: nat)
    ensures RemoveDown(r, keys, t, c, d).0.fired == r.fired
    decreases |keys|
  {
    hide UnlistenByKey, Selected;
    if keys != [] {
      var k, rest := keys[|keys| - 1], keys[..|keys| - 1];
      UnlistenFiresNothing(r, k);
      RemoveFiresNothing(UnlistenByKey(r, k).0, rest, t, c, d + 1);
      RemoveFiresNothing(r, rest, t, c, d);
    }
  }

  lemma FlatCall(d: Run, k: Key)
    requires Inv(d.reg) && Flat(d.plan)
    ensures var d' := CallNext(d, k); d'.reg.fired == d.reg.fired + [k] && Flat(d'.plan)
  {
    hide Inv, RunActions, UnlistenByKey, NoDispatch, Evolves;
    var r := Fired(d.reg, k);
    FiredKeeps(d.reg, k);
    if d.plan.Next? {
      FiresNothing(r, d.plan.call.actions);
      r := RunActions(r, d.plan.call.actions);
    }
    UnlistenFiresNothing(r, k);
  }

  /** Some of the items, in their order. */
  predicate Picks(keys: seq<Key>, items: seq<Key>) {
    keys == [] || (items != [] &&
      ((keys[0] == items[0] && Picks(keys[1..], items[1..])) || Picks(keys, items[1..])))
  }

  lemma PickFirst(k: Key, keys: seq<Key>, rest: seq<Key>)
    requires Picks(keys, rest)
    ensures Picks([k] + keys, [k] + rest)
  {
    assert ([k] + keys)[1..] == keys && ([k] + rest)[1..] == rest;
  }

  lemma {:induction false} FirePicks(d: Run, s: Slot, i: nat, n: nat) returns (keys: seq<Key>)
    requires Inv(d.reg) && Flat(d.plan) && Locked(d.reg, s) > 0 && i <= n <= |d.reg.arrays[s].items|
    ensures FireFrom(d, s, i, n).reg.fired == d.reg.fired + keys
    ensures Picks(keys, d.reg.arrays[s].items[i..n]) && forall k :: k in keys ==> Live(d.reg, k)
    decreases n - i
  {
    hide Inv, Evolves, CallNext, ActionsSafe, Flat;
    keys := [];
    if i < n && !d.thrown {
      var items := d.reg.arrays[s].items;
      var k := items[i];
      assert items[i..n] == [k] + items[i + 1..n];
      if Live(d.reg, k) {
        var d1 := CallNext(d, k);
        CallKeeps(d, k);
        FlatCall(d, k);
        StaysAt(d.reg, d1.reg, s, n - 1);
        SameUpToEnd(d.reg, d1.reg, s, n);
        var more := FirePicks(d1, s, i + 1, n);
        keys := [k] + more;
        PickFirst(k, more, items[i + 1..n]);
        forall j | j in more ensures Live(d.reg, j) {
          PickedIsItem(more, items[i + 1..n], j);
          ItemIsKnown(d.reg, s, j);
          LiveBefore(d.reg, d1.reg, j);
        }
      } else {
        keys := FirePicks(d, s, i + 1, n);
        assert items[i..n][1..] == items[i + 1..n];
      }
    }
  }

  lemma SameUpToEnd(r: Registry, r': Registry, s: Slot, n: nat)
    requires Evolves(r, r') && Locked(r, s) > 0 && n <= |r.arrays[s].items|
    ensures Locked(r', s) > 0 && n <= |r'.arrays[s].items|
    ensures forall i :: 0 <= i <= n ==> r'.arrays[s].items[i..n] == r.arrays[s].items[i..n]
  {
    assert Locked(r, s) == Locked(r', s);
    assert r.arrays[s].items <= r'.arrays[s].items;
  }

  lemma {:induction false} PickedIsItem(keys: seq<Key>, items: seq<Key>, k: Key)
    requires Picks(keys, items) && k in keys
    ensures k in items
    decreases |items|
  {
    if keys[0] == items[0] && Picks(keys[1..], items[1..]) {
      if k != keys[0] {
        PickedIsItem(keys[1..], items[1..], k);
      }
    } else {
      PickedIsItem(keys, items[1..], k);
    }
  }

  lemma ItemIsKnown(r: Registry, s: Slot, k: Key)
    requires Inv(r) && s in r.arrays && k in r.arrays[s].items
    ensures k in r.records
  {
    assert ArrayOk(r, s, r.arrays[s]);
  }

  /** Callbacks that listen, unlisten and remove while their array fires: the calls are of
      listeners that were there at the start, in order; a listener that comes meanwhile has to
      wait for the next event, one that goes before its turn is not called, and one that stays is,
      unless an exception comes before. */
  lemma TurnsExactly(d: Run, s: Slot) returns (keys: seq<Key>)
    requires Inv(d.reg) && Flat(d.plan) && s in d.reg.arrays
    ensures var d', items := FireListeners(d, s), d.reg.arrays[s].items;
      && d'.reg.fired == d.reg.fired + keys
      && Picks(keys, items) && (forall k :: k in keys ==> Live(d.reg, k))
      && (!d'.thrown ==> forall k :: k in items && Live(d.reg, k) && Live(d'.reg, k) ==> k in keys)
  {
    hide Inv, Evolves, FireFrom, Unlock, Flat, Picks, Live;
    QuietArray(d.reg, s);
    LockKeeps(d.reg, s);
    Locks(d.reg, s);
    var d0 := d.(reg := Lock(d.reg, s), ok := true);
    var n := |d0.reg.arrays[s].items|;
    keys := FirePicks(d0, s, 0, n);
    assert d0.reg.arrays[s].items[0..n] == d.reg.arrays[s].items;
    UnlockKeepsRecords(FireFrom(d0, s, 0, n).reg, s);
    var d' := FireListeners(d, s);
    assert d'.reg.fired[|d.reg.fired|..] == keys;
    SameLives(d.reg, d0.reg);
    forall k | k in d.reg.arrays[s].items && Live(d.reg, k) && Live(d'.reg, k) && !d'.thrown ensures k in keys {
      ItsRecord(d.reg, s, k);
      ListenersReach(d, k);
    }
  }

  lemma SameLives(r: Registry, r': Registry)
    requires r'.records == r.records
    ensures forall k :: Live(r', k) <==> Live(r, k)
  {
  }
}
