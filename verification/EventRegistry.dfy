/** The registry as the source keeps it: one object changed in place, with the loops of
    `listen`, `unlisten`, `cleanUp_`, `removeAll`, `fireListeners_` and `dispatchEvent`. Each
    method is proved to compute the function of the same name in EventModel and EventDispatch. */
module EventRegistry {
  import opened EventModel
  import D = EventDispatch
  import opened Wrappers

  lemma {:induction false} LiveItemsSnoc(r: Registry, items: seq<Key>, k: Key)
    ensures LiveItems(r, items + [k]) == LiveItems(r, items) + if Live(r, k) then [k] else []
  {
    if items == [] {
      assert [] + [k] == [k];
    } else {
      assert (items + [k])[1..] == items[1..] + [k];
      LiveItemsSnoc(r, items[1..], k);
    }
  }

  lemma {:induction false} RemoveFirstAt(s: seq<Key>, k: Key, i: nat)
    requires i < |s| && s[i] == k && forall j :: 0 <= j < i ==> s[j] != k
    ensures RemoveFirst(s, k) == s[..i] + s[i + 1..]
  {
    if i > 0 {
      RemoveFirstAt(s[1..], k, i - 1);
      assert [s[0]] + s[1..][..i - 1] == s[..i];
    }
  }

  lemma {:induction false} RemoveFirstNone(s: seq<Key>, k: Key)
    requires k !in s
    ensures RemoveFirst(s, k) == s
  {
    if s != [] {
      RemoveFirstNone(s[1..], k);
    }
  }

  class EventRegistry {
    var counter: nat
    var records: map<Key, Listener>
    var listeners: set<Key>
    var types: map<EventType, int>
    var phases: map<Phase, PhaseNode>
    var arrays: map<Slot, ListenerArray>
    var sources: map<Source, seq<Key>>
    ghost var fired: seq<Key>

    ghost function View(): Registry
      reads this
    {
      Registry(counter, records, listeners, types, phases, arrays, sources, fired)
    }

    constructor ()
      ensures View() == EMPTY
    {
      counter, records, listeners := 0, map[], {};
      types, phases, arrays, sources := map[], map[], map[], map[];
      fired := [];
    }

    // ----- listen and unlisten

    method FindMatch(items: seq<Key>, f: Callback, h: Handler) returns (i: nat)
      ensures i == FirstMatch(View(), items, f, h)
    {
      i := 0;
      while i < |items| && !(items[i] in records && records[items[i]].callback == f && records[items[i]].handler == h)
        invariant i <= |items|
        invariant FirstMatch(View(), items, f, h) == FirstMatch(View(), items, f, h, i)
      {
        i := i + 1;
      }
    }

    /** The nodes of the tree above an array. */
    method EnterNodes(p: Phase)
      modifies this
      ensures View() == EventModel.EnterNodes(old(View()), p)
    {
      if p.typ !in types {
        types := types[p.typ := 0];
      }
      if p !in phases {
        phases := phases[p := PhaseNode(0, 0)];
        types := types[p.typ := types[p.typ] + 1];
      }
      assert old(p in phases) ==> phases[p := phases[p]] == phases;
    }

    /** A record with a new key, in all three indexes. */
    method AddRecord(s: Slot, f: Callback, h: Handler) returns (key: Key)
      requires s in arrays
      modifies this
      ensures View() == EventModel.AddRecord(old(View()), s, f, h) && key == old(counter) + 1
    {
      counter := counter + 1;
      key := counter;
      records := records[key := Listener(s, f, h, false, false)];
      arrays := arrays[s := arrays[s].(items := arrays[s].items + [key])];
      listeners := listeners + {key};
      if s.src !in sources {
        sources := sources[s.src := []];
      }
      sources := sources[s.src := sources[s.src] + [key]];
    }

    /** The nodes are made before the source is asked for its uid, and the array of a new source
        before the listener is looked at. */
    method Listen(s: Slot, f: Callback, h: Handler) returns (key: Option<Key>)
      modifies this
      ensures (View(), key) == EventModel.Listen(old(View()), s, f, h)
    {
      if s.phase.typ == NO_TYPE {
        return None;
      }
      EnterNodes(s.phase);
      if s.src == NO_SOURCE {
        return None;
      }
      phases := phases[s.phase := phases[s.phase].(remaining := phases[s.phase].remaining + 1)];
      if s in arrays {
        var i := FindMatch(arrays[s].items, f, h);
        if i < |arrays[s].items| && !records[arrays[s].items[i]].removed {
          return Some(arrays[s].items[i]);
        }
      } else {
        arrays := arrays[s := ListenerArray([], 0, false)];
        phases := phases[s.phase := phases[s.phase].(count := phases[s.phase].count + 1)];
      }
      if f == NO_LISTENER {
        return None;
      }
      var k := AddRecord(s, f, h);
      key := Some(k);
    }

    method ListenOnce(s: Slot, f: Callback, h: Handler) returns (key: Option<Key>)
      modifies this
      ensures (View(), key) == EventModel.ListenOnce(old(View()), s, f, h)
    {
      key := Listen(s, f, h);
      if key.Some? && key.value in records {
        records := records[key.value := records[key.value].(callOnce := true)];
      }
    }

    /** Moves the live records of an array to the front, in place, and cuts off the rest. */
    method Compact(items: seq<Key>) returns (d: seq<Key>)
      ensures d == LiveItems(View(), items)
    {
      d := items;
      var e, f := 0, 0;
      while e < |d|
        invariant f <= e <= |d| == |items|
        invariant d[..f] == LiveItems(View(), items[..e])
        invariant forall j :: e <= j < |d| ==> d[j] == items[j]
      {
        assert items[..e + 1] == items[..e] + [items[e]];
        LiveItemsSnoc(View(), items[..e], items[e]);
        if d[e] in records && !records[d[e]].removed {
          if e != f {
            d := d[f := d[e]];
          }
          f := f + 1;
        }
        e := e + 1;
      }
      assert items[..e] == items;
      d := d[..f];
    }

    method CleanUp(s: Slot)
      requires s in arrays && s.phase in phases && s.phase.typ in types
      modifies this
      ensures View() == EventModel.CleanUp(old(View()), s)
    {
      if arrays[s].locked != 0 || !arrays[s].needsCleanup {
        return;
      }
      var d := Compact(arrays[s].items);
      if d != [] {
        arrays := arrays[s := ListenerArray(d, 0, false)];
      } else {
        arrays := arrays - {s};
        phases := phases[s.phase := phases[s.phase].(count := phases[s.phase].count - 1)];
        if phases[s.phase].count == 0 {
          phases := phases - {s.phase};
          types := types[s.phase.typ := types[s.phase.typ] - 1];
        }
        if types[s.phase.typ] == 0 {
          types := types - {s.phase.typ};
        }
      }
    }

    /** `goog.array.remove` on the records of a source. */
    method RemoveFromSource(x: Source, k: Key)
      modifies this
      ensures var rest := if x in old(sources) then RemoveFirst(old(sources)[x], k) else [];
        View() == old(View()).(sources := if rest == [] then old(sources) - {x} else old(sources)[x := rest])
    {
      if x in sources {
        var keys := sources[x];
        var i := 0;
        while i < |keys| && keys[i] != k
          invariant i <= |keys| && forall j :: 0 <= j < i ==> keys[j] != k
        {
          i := i + 1;
        }
        if i < |keys| {
          RemoveFirstAt(keys, k, i);
          keys := keys[..i] + keys[i + 1..];
        } else {
          RemoveFirstNone(keys, k);
        }
        sources := if keys == [] then sources - {x} else sources[x := keys];
      }
    }

    method UnlistenByKey(k: Key) returns (b: bool)
      modifies this
      ensures (View(), b) == EventModel.UnlistenByKey(old(View()), k)
    {
      if k !in listeners || !(k in records && !records[k].removed) {
        return false;
      }
      var s := records[k].slot;
      if !(s in arrays && s.phase in phases && s.phase.typ in types) {
        return false;
      }
      RemoveFromSource(s.src, k);
      records := records[k := records[k].(removed := true)];
      arrays := arrays[s := arrays[s].(needsCleanup := true)];
      listeners := listeners - {k};
      assert View() == Retire(old(View()), k);
      CleanUp(s);
      b := true;
    }

    method Unlisten(s: Slot, f: Callback, h: Handler) returns (b: bool)
      modifies this
      ensures (View(), b) == EventModel.Unlisten(old(View()), s, f, h)
    {
      b := false;
      if s in arrays {
        var i := FindMatch(arrays[s].items, f, h);
        if i < |arrays[s].items| {
          b := UnlistenByKey(arrays[s].items[i]);
        }
      }
    }

    /** `removeAll` on one source, last record first. Removing a record leaves the ones
        before it in place, so the walk reads the list as it was at the start. */
    method RemoveAll(x: Source, t: Option<EventType>, c: Option<bool>) returns (d: nat)
      modifies this
      ensures (View(), d) == EventModel.RemoveAll(old(View()), x, t, c)
    {
      d := 0;
      if x in sources {
        var a := sources[x];
        var g := |a| - 1;
        assert a[..|a|] == a;
        while g >= 0
          invariant -1 <= g < |a|
          invariant RemoveDown(old(View()), a, t, c, 0) == RemoveDown(View(), a[..g + 1], t, c, d)
        {
          assert a[..g + 1][..g] == a[..g];
          var k := a[g];
          if k in records && (t.None? || records[k].slot.phase.typ == t.value)
             && (c.None? || records[k].slot.phase.capture == c.value)
          {
            var b := UnlistenByKey(k);
            d := d + 1;
          }
          g := g - 1;
        }
      }
    }

    // ----- dispatch

    method RunActions(acts: D.Actions)
      modifies this
      ensures View() == D.RunActions(old(View()), acts)
      decreases D.ActionsSize(acts), 0
    {
      if acts.Then? {
        RunAction(acts.first);
        RunActions(acts.rest);
      }
    }

    method RunAction(a: D.Action)
      modifies this
      ensures View() == D.RunAction(old(View()), a)
      decreases D.ActionSize(a), 0
    {
      match a
      case DoListen(s, f, h) => var k := Listen(s, f, h);
      case DoListenOnce(s, f, h) => var k := ListenOnce(s, f, h);
      case DoUnlisten(s, f, h) => var b := Unlisten(s, f, h);
      case DoUnlistenByKey(k) => var b := UnlistenByKey(k);
      case DoRemoveAll(x, t, c) => var d := RemoveAll(x, t, c);
      case DoDispatch(path, t, plan) => var e := DispatchEvent(path, t, plan);
    }

    /** The event object and the callbacks still to come, as a `Run` of the specification. */
    ghost function Progress(e: Event): D.Run
      reads this, e
    {
      D.Run(View(), e.plan, e.ok, e.stopped, e.returnValue, e.thrown)
    }

    /** A call-once listener is removed when its callback has returned. */
    method AfterCall(k: Key)
      modifies this
      ensures View() == D.AfterCall(old(View()), k)
    {
      hide EventModel.UnlistenByKey;
      if k in records && records[k].callOnce {
        var b := UnlistenByKey(k);
      }
    }

    /** `fireListener`: one callback is called. */
    method CallNext(e: Event, k: Key)
      modifies this, e
      ensures Progress(e) == D.CallNext(old(Progress(e)), k)
      decreases D.PlanSize(e.plan), 0
    {
      hide D.RunActions, D.AfterCall;
      fired := fired + [k];
      assert View() == D.Fired(old(View()), k);
      hide View;
      var call := D.NextCall(e.plan);
      if e.plan.Next? {
        RunActions(call.actions);
      }
      if call.throws {
        e.plan := D.Later(e.plan);
        e.thrown := true;
        return;
      }
      AfterCall(k);
      e.Return(call);
    }

    /** The records the array had when its firing began, one after the other. */
    method FireAll(e: Event, s: Slot, g: nat)
      modifies this, e
      ensures Progress(e) == D.FireFrom(old(Progress(e)), s, 0, g)
      decreases D.PlanSize(e.plan), 1
    {
      hide D.CallNext;
      var h := 0;
      while h < g && !e.thrown && s in arrays && h < |arrays[s].items|
        invariant D.PlanSize(e.plan) <= D.PlanSize(old(e.plan))
        invariant h <= g && D.FireFrom(old(Progress(e)), s, 0, g) == D.FireFrom(Progress(e), s, h, g)
        decreases g - h
      {
        var k := arrays[s].items[h];
        if k in records && !records[k].removed {
          CallNext(e, k);
        }
        h := h + 1;
      }
    }

    method FireListeners(e: Event, s: Slot)
      modifies this, e
      ensures Progress(e) == D.FireListeners(old(Progress(e)), s)
      decreases D.PlanSize(e.plan), 2
    {
      hide D.FireFrom, EventModel.CleanUp;
      e.ok := true;
      if !(s in arrays && s.phase in phases && s.phase.typ in types) {
        return;
      }
      phases := phases[s.phase := phases[s.phase].(remaining := phases[s.phase].remaining - 1)];
      arrays := arrays[s := arrays[s].(locked := arrays[s].locked + 1)];
      assert View() == D.Lock(old(View()), s);
      FireAll(e, s, |arrays[s].items|);
      // finally
      if s in arrays && s.phase in phases && s.phase.typ in types && arrays[s].locked > 0 {
        arrays := arrays[s := arrays[s].(locked := arrays[s].locked - 1)];
        CleanUp(s);
      }
    }

    /** The walk over the sources of one phase, down from the last one or up from the first. */
    method Walk(e: Event, p: Phase, f: seq<Source>, down: bool)
      modifies this, e
      ensures Progress(e) == D.Walk(old(Progress(e)), p, if down then D.Reverse(f) else f, 0, true)
      decreases D.PlanSize(e.plan), 3
    {
      hide D.FireListeners, D.Reverse, D.PlanSize;
      ghost var order := if down then D.Reverse(f) else f;
      var h := if down then |f| - 1 else 0;
      ghost var n: nat := 0;
      while !e.stopped && !e.thrown && 0 <= h < |f| && p in phases && phases[p].remaining != 0
        invariant n <= |f| == |order| && h == if down then |f| - 1 - n else n
        invariant D.PlanSize(e.plan) <= D.PlanSize(old(e.plan))
        invariant D.Walk(old(Progress(e)), p, order, 0, true) == D.Walk(Progress(e), p, order, n, true)
        decreases |f| - n
      {
        var ok := e.ok;
        assert f[h] == order[n];
        FireListeners(e, Slot(p, f[h]));
        e.ok := ok && e.ok && e.returnValue;
        h := if down then h - 1 else h + 1;
        n := n + 1;
      }
    }

    method DispatchEvent(path: seq<Source>, t: EventType, plan: D.Plan) returns (e: Event)
      modifies this
      ensures fresh(e) && Progress(e) == D.Dispatch(old(View()), path, t, plan, true)
      decreases D.PlanSize(plan), 5
    {
      e := new Event(plan);
      if t !in types {
        return;
      }
      var capture, bubble := Phase(t, true), Phase(t, false);
      if capture in phases {
        phases := phases[capture := phases[capture].(remaining := phases[capture].count)];
        Walk(e, capture, path, true);
      }
      if !e.thrown && bubble in phases {
        phases := phases[bubble := phases[bubble].(remaining := phases[bubble].count)];
        Walk(e, bubble, path, false);
      }
    }
  }

  /** The event object of one dispatch, with the behaviour of the callbacks still to come. */
  class Event {
    var plan: D.Plan
    var ok: bool
    var stopped: bool
    var returnValue: bool
    var thrown: bool

    constructor (plan: D.Plan)
      ensures this.plan == plan && ok && !stopped && returnValue && !thrown
    {
      this.plan := plan;
      ok, stopped, returnValue, thrown := true, false, true, false;
    }

    /** What a callback that returns leaves in the event. */
    method Return(call: D.Call)
      modifies this
      ensures plan == D.Later(old(plan)) && thrown == old(thrown) && ok == (old(ok) && !call.returnsFalse)
      ensures stopped == (old(stopped) || call.stops) && returnValue == (old(returnValue) && !call.prevents)
    {
      plan := D.Later(plan);
      ok := ok && !call.returnsFalse;
      stopped := stopped || call.stops;
      returnValue := returnValue && !call.prevents;
    }
  }
}
