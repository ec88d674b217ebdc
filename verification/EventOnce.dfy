/** `listenOnce`: which record it marks, and that this record then fires once and never again. */
module EventOnce {
  import opened EventModel
  import opened EventInvariants
  import opened EventDispatch
  import opened EventSafety
  import opened EventShortcut
  import opened EventQuiet
  import opened EventUndo
  import opened Wrappers

  // ----- one call

  /** What `listen` returns is a live record at the place asked for. */
  lemma ListenReturns(r: Registry, s: Slot, f: Callback, h: Handler)
    requires Inv(r)
    ensures var (r1, k) := Listen(r, s, f, h);
      k.Some? ==> Live(r1, k.value) && r1.records[k.value] == Listener(s, f, h, r1.records[k.value].callOnce, false)
  {
    hide Inv, IndexesOk, SourcesOk, CountsOk, RecordsOk, FirstMatch;
    var (r1, k) := Listen(r, s, f, h);
    if k.Some? && s in r.arrays {
      PreparedMatch(r, s, f, h);
    }
  }

  lemma PreparedMatch(r: Registry, s: Slot, f: Callback, h: Handler)
    requires Inv(r) && s in r.arrays
    ensures var r1 := Prepared(r, s);
      && r1.records == r.records && r1.arrays == r.arrays
      && forall k :: k in r.arrays[s].items ==> k in r.records && r.records[k].slot == s
  {
    assert ArrayOk(r, s, r.arrays[s]);
  }

  /** `listenOnce` does what `listen` does and marks the record returned, and this one alone,
      call-once: a new one, or the standing one with the same callback and handler. */
  lemma ListenOnceExactly(r: Registry, s: Slot, f: Callback, h: Handler)
    requires Inv(r)
    ensures var (r1, k) := Listen(r, s, f, h);
      var (r2, k') := ListenOnce(r, s, f, h);
      && k' == k && r2 == r1.(records := r2.records) && r2.records.Keys == r1.records.Keys
      && (forall j :: j in r1.records && k != Some(j) ==> r2.records[j] == r1.records[j])
      && (k.Some? ==> k.value in r2.records && r2.records[k.value] == Listener(s, f, h, true, false))
  {
    hide Inv, Listen;
    ListenReturns(r, s, f, h);
  }

  // ----- what is heard is heard once

  lemma {:induction false} LiveItemsDistinct(r: Registry, items: seq<Key>)
    requires Distinct(items)
    ensures Distinct(LiveItems(r, items))
  {
    LiveItemsMembers(r, items);
  }

  lemma DistinctBoth(a: seq<Key>, b: seq<Key>)
    requires Distinct(a) && Distinct(b) && forall k :: k in a ==> k !in b
    ensures Distinct(a + b)
  {
    var c := a + b;
    forall i, j | 0 <= i < j < |c| ensures c[i] != c[j] {
      assert i < |a| <= j ==> c[i] in a && c[j] == b[j - |a|] && c[j] in b;
    }
  }

  lemma {:induction false} HeardDistinct(r: Registry, p: Phase, order: seq<Source>)
    requires Inv(r) && Distinct(order)
    ensures Distinct(Heard(r, p, order))
  {
    hide Inv, LiveItems, SlotsAlong;
    if order != [] {
      var s := Slot(p, order[0]);
      assert order[0..] == order && order[0 + 1..] == order[1..];
      HeardDistinct(r, p, order[1..]);
      HeardHereDistinct(r, s);
      HeardIsHere(r, s);
      HeardIsAlong(r, p, order[1..]);
      AlongStep(p, order, 0);
      DistinctBoth(HeardAt(r, s), Heard(r, p, order[1..]));
    }
  }

  lemma HeardHereDistinct(r: Registry, s: Slot)
    requires Inv(r)
    ensures Distinct(HeardAt(r, s))
  {
    if s in r.arrays {
      assert ArrayOk(r, s, r.arrays[s]);
      LiveItemsDistinct(r, r.arrays[s].items);
    }
  }

  lemma HeardOfDistinct(r: Registry, path: seq<Source>, t: EventType)
    requires Inv(r) && Distinct(path)
    ensures Distinct(HeardOf(r, path, t))
  {
    hide Inv, Heard, SlotsAlong, Distinct;
    var capture, bubble, down := Phase(t, true), Phase(t, false), Reverse(path);
    ReverseDistinct(path);
    HeardDistinct(r, capture, down);
    HeardDistinct(r, bubble, path);
    HeardIsAlong(r, capture, down);
    HeardIsAlong(r, bubble, path);
    OtherPhase(t, path, down);
    DistinctBoth(Heard(r, capture, down), Heard(r, bubble, path));
  }

  /** A live record on the chain is heard, and only live records are. */
  lemma {:induction false} HeardExactly(r: Registry, p: Phase, order: seq<Source>, k: Key)
    requires Inv(r) && k in r.records
    ensures k in Heard(r, p, order) <==>
      Live(r, k) && r.records[k].slot.phase == p && r.records[k].slot.src in order
  {
    hide Inv, LiveItems;
    if order != [] {
      assert order == [order[0]] + order[1..];
      HeardExactly(r, p, order[1..], k);
      HeardHere(r, Slot(p, order[0]), k);
    }
  }

  lemma HeardHere(r: Registry, s: Slot, k: Key)
    requires Inv(r) && k in r.records
    ensures k in HeardAt(r, s) <==> Live(r, k) && r.records[k].slot == s
  {
    if Live(r, k) {
      assert Indexed(r, k);
    }
    if s in r.arrays {
      assert ArrayOk(r, s, r.arrays[s]);
      LiveItemsMembers(r, r.arrays[s].items);
    }
  }

  lemma HeardOfExactly(r: Registry, path: seq<Source>, t: EventType, k: Key)
    requires Inv(r) && k in r.records
    ensures k in HeardOf(r, path, t) <==>
      Live(r, k) && r.records[k].slot.phase.typ == t && r.records[k].slot.src in path
  {
    hide Inv, Heard;
    var s := r.records[k].slot;
    HeardExactly(r, Phase(t, true), Reverse(path), k);
    HeardExactly(r, Phase(t, false), path, k);
    assert s.phase == Phase(s.phase.typ, s.phase.capture);
    ReverseMembers(path, s.src);
  }

  lemma ReverseMembers(path: seq<Source>, x: Source)
    ensures x in Reverse(path) <==> x in path
  {
    var back := Reverse(path);
    assert forall i :: 0 <= i < |path| ==> path[i] == back[|path| - 1 - i];
  }

  // ----- once means once

  /** No dispatch fires the key, when the callbacks only return. */
  ghost predicate NeverHeard(r: Registry, k: Key) {
    forall path: seq<Source>, t: EventType :: Distinct(path) ==>
      var fired := Dispatch(r, path, t, Quiet, true).reg.fired;
      r.fired <= fired && k !in fired[|r.fired|..]
  }

  lemma RemovedIsNeverHeard(r: Registry, k: Key)
    requires Inv(r) && k in r.records && r.records[k].removed
    ensures NeverHeard(r, k)
  {
    hide Inv, Dispatch, HeardOf;
    forall path: seq<Source>, t: EventType | Distinct(path)
      ensures var fired := Dispatch(r, path, t, Quiet, true).reg.fired;
        r.fired <= fired && k !in fired[|r.fired|..]
    {
      QuietDispatchExactly(r, path, t);
      HeardOfExactly(r, path, t, k);
    }
  }

  /** After `listenOnce` a dispatch along its source, with callbacks that only return, fires the
      record exactly once and takes it away; whatever happens then, no such dispatch fires it
      again. */
  lemma OnceFiresOnce(
    r: Registry, s: Slot, f: Callback, h: Handler, path: seq<Source>, acts: Actions)
    requires Inv(r) && ListenOnce(r, s, f, h).1.Some? && Distinct(path) && s.src in path
    ensures var (r1, k) := ListenOnce(r, s, f, h);
      var r2 := Dispatch(r1, path, s.phase.typ, Quiet, true).reg;
      && r1.fired <= r2.fired && multiset(r2.fired[|r1.fired|..])[k.value] == 1
      && k.value in r1.listeners && k.value !in r2.listeners
      && NeverHeard(RunActions(r2, acts), k.value)
  {
    hide Inv, Listen, ListenOnce, Dispatch, HeardOf, Evolves, RunActions, OnceOf, WithRemoved, SameArrays, ActionsSafe;
    hide NeverHeard, SlotsOn;
    var (r1, k) := ListenOnce(r, s, f, h);
    ListenOnceKeeps(r, s, f, h);
    ListenOnceExactly(r, s, f, h);
    IsListener(r1, k.value);
    var keys := HeardOf(r1, path, s.phase.typ);
    QuietDispatchExactly(r1, path, s.phase.typ);
    HeardOfDistinct(r1, path, s.phase.typ);
    HeardOfExactly(r1, path, s.phase.typ, k.value);
    DistinctOnce(keys, k.value);
    var r2 := Dispatch(r1, path, s.phase.typ, Quiet, true).reg;
    assert r2.fired[|r1.fired|..] == keys;
    MarkedIsGone(r1, keys, k.value);
    ActionsKeep(r2, acts);
    MarksStay(r2, RunActions(r2, acts), k.value);
    RemovedIsNeverHeard(RunActions(r2, acts), k.value);
  }

  lemma IsListener(r: Registry, k: Key)
    requires Inv(r) && Live(r, k)
    ensures k in r.listeners
  {
  }

  lemma MarkedIsGone(r: Registry, keys: seq<Key>, k: Key)
    requires k in keys && k in r.records && r.records[k].callOnce
    ensures k in OnceOf(r, keys)
    ensures k in WithRemoved(r.records, OnceOf(r, keys)) && WithRemoved(r.records, OnceOf(r, keys))[k].removed
  {
  }

  // ----- listening again from a call-once callback

  /** A call-once callback that listens again for itself finds its own record, which is still there,
      and this record goes when the callback returns: the new registration is lost. */
  lemma RelistenIsLost(d: Run, k: Key)
    requires Inv(d.reg) && Live(d.reg, k) && d.reg.records[k].callOnce
    requires var l := d.reg.records[k];
      && l.slot.phase.typ != NO_TYPE && l.slot.src != NO_SOURCE
      && var items := Items(d.reg, l.slot);
      var i := FirstMatch(d.reg, items, l.callback, l.handler);
      i < |items| && items[i] == k
    requires var l := d.reg.records[k];
      NextCall(d.plan) == QUIET_CALL.(actions := Then(DoListen(l.slot, l.callback, l.handler), Done))
    ensures CallNext(d, k).reg.listeners == d.reg.listeners - {k}
  {
    hide Inv, UnlistenByKey, FirstMatch, Listen, Evolves, Entered;
    var l, r := d.reg.records[k], Fired(d.reg, k);
    FiredKeeps(d.reg, k);
    SameMatch(d.reg, r, Items(r, l.slot), l.callback, l.handler, 0);
    ListenExactly(r, l.slot, l.callback, l.handler);
    ListenKeeps(r, l.slot, l.callback, l.handler);
    var r1 := Listen(r, l.slot, l.callback, l.handler).0;
    OneAction(r, DoListen(l.slot, l.callback, l.handler));
    assert d.plan.Next? && RunActions(r, d.plan.call.actions) == r1;
    UnlistenByKeyKeeps(r1, k);
  }

  lemma OneAction(r: Registry, a: Action)
    ensures RunActions(r, Then(a, Done)) == RunAction(r, a)
  {
    hide RunAction;
    assert RunActions(RunAction(r, a), Done) == RunAction(r, a);
  }
}
