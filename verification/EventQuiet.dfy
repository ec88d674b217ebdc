/** What a dispatch fires when the callbacks change no registration: which calls are made, what
    stopping the event and throwing cut off, the result, and which call-once listeners are gone
    afterwards. */
module EventQuiet {
  import opened EventModel
  import opened EventInvariants
  import opened EventDispatch
  import opened EventSafety
  import opened EventHeard
  import opened EventShortcut
  import opened EventWalk

  // ----- what is told of a stretch of a dispatch

  /** The call-once records among the keys. */
  function OnceOf(r: Registry, keys: seq<Key>): set<Key> {
    set k | k in keys && k in r.records && r.records[k].callOnce
  }

  function WithRemoved(records: map<Key, Listener>, gone: set<Key>): map<Key, Listener> {
    map k | k in records :: if k in gone then records[k].(removed := true) else records[k]
  }

  /** The keys whose calls have returned: all, or all but the last. */
  function Returned(keys: seq<Key>, thrown: bool): seq<Key> {
    if thrown && keys != [] then keys[..|keys| - 1] else keys
  }

  /** From d to d' the keys have fired, with the next calls of the plan; the call-once ones among
      them that returned are gone, and apart from the arrays touched and the counters nothing else
      has changed. */
  ghost predicate Told(d: Run, d': Run, keys: seq<Key>, touched: set<Slot>) {
    var cs := FirstCalls(d.plan, |keys|);
    var gone := OnceOf(d.reg, Returned(keys, d'.thrown));
    && !d.thrown && Throws(cs, d'.thrown) && d'.plan == After(d.plan, |keys|)
    && (!d'.thrown ==>
          && d'.stopped == (d.stopped || AnyStops(cs))
          && d'.returnValue == (d.returnValue && !AnyPrevents(cs)))
    && d'.reg.fired == d.reg.fired + keys
    && d'.reg.listeners == d.reg.listeners - gone
    && d'.reg.records == WithRemoved(d.reg.records, gone)
    && SameArrays(d.reg, d'.reg, touched)
  }

  ghost predicate SameArrays(r: Registry, r': Registry, touched: set<Slot>) {
    forall s :: s !in touched ==>
      (s in r.arrays <==> s in r'.arrays) && (s in r.arrays ==> r'.arrays[s] == r.arrays[s])
  }

  lemma ToldNothing(d: Run, d': Run, touched: set<Slot>)
    requires !d.thrown
    requires d' == d.(ok := d'.ok, reg := d.reg.(arrays := d'.reg.arrays, phases := d'.reg.phases,
      types := d'.reg.types, sources := d'.reg.sources, counter := d'.reg.counter))
    requires SameArrays(d.reg, d'.reg, touched)
    ensures Told(d, d', [], touched)
  {
    assert d.reg.fired + [] == d.reg.fired;
    assert OnceOf(d.reg, []) == {};
    assert WithRemoved(d.reg.records, {}) == d.reg.records;
  }

  lemma ToldTransitive(a: Run, b: Run, c: Run, j: seq<Key>, k: seq<Key>, touched: set<Slot>)
    requires Told(a, b, j, touched) && Told(b, c, k, touched)
    ensures Told(a, c, j + k, touched)
  {
    CallsSplit(a.plan, |j|, |k|);
    RestOfCalls(a.plan, |j|, |k|, c.thrown);
    hide FirstCalls, After;
    assert a.reg.fired + j + k == a.reg.fired + (j + k);
    GoneTransitive(a.reg, b.reg, c.reg, j, k, c.thrown);
  }

  lemma GoneTransitive(a: Registry, b: Registry, c: Registry, j: seq<Key>, k: seq<Key>, thrown: bool)
    requires b.listeners == a.listeners - OnceOf(a, j) && b.records == WithRemoved(a.records, OnceOf(a, j))
    requires var gone := OnceOf(b, Returned(k, thrown));
      c.listeners == b.listeners - gone && c.records == WithRemoved(b.records, gone)
    ensures var gone := OnceOf(a, Returned(j + k, thrown && k != []));
      c.listeners == a.listeners - gone && c.records == WithRemoved(a.records, gone)
  {
    var k' := Returned(k, thrown);
    assert Returned(j + k, thrown && k != []) == j + k';
    assert OnceOf(b, k') == OnceOf(a, k');
    assert OnceOf(a, j + k') == OnceOf(a, j) + OnceOf(a, k');
  }

  lemma ToldMore(a: Run, b: Run, keys: seq<Key>, touched: set<Slot>, more: set<Slot>)
    requires Told(a, b, keys, touched) && touched <= more
    ensures Told(a, b, keys, more)
  {
  }

  lemma SameUpTo(r: Registry, r': Registry, heard: seq<Key>, keys: seq<Key>, cs: seq<Call>, thrown: bool, gone: set<Key>)
    requires r'.records == WithRemoved(r.records, gone) && UpTo(r', heard, keys, cs, thrown)
    ensures UpTo(r, heard, keys, cs, thrown)
  {
    assert forall j, k :: SameArray(r', j, k) <==> SameArray(r, j, k);
  }

  // ----- one callback

  lemma OneCall(d: Run, s: Slot, k: Key)
    requires Passive(d.plan) && !d.thrown && Inv(d.reg) && s in d.reg.arrays && d.reg.arrays[s].locked > 0
    requires k in d.reg.arrays[s].items && Live(d.reg, k)
    ensures var d' := CallNext(d, k);
      && Told(d, d', [k], {s}) && Passive(d'.plan)
      && (!d'.thrown ==> d'.ok == (d.ok && !AnyFalse(FirstCalls(d.plan, 1))))
      && s in d'.reg.arrays && d'.reg.arrays[s].locked == d.reg.arrays[s].locked
      && d'.reg.arrays[s].items == d.reg.arrays[s].items
  {
    hide Inv, CallNext, UnlistenByKey, WithRemoved, OnceOf, Live;
    ItsRecord(d.reg, s, k);
    PassiveCallNext(d, k);
    OnceOfOne(d.reg, k);
    OneOfCalls(d.plan);
    assert OnceOf(d.reg, []) == {} by { OnceOfNone(d.reg); }
    assert [k][..0] == [];
    if !NextCall(d.plan).throws && d.reg.records[k].callOnce {
      LockedUnlisten(Fired(d.reg, k), s, k);
    }
  }

  lemma OnceOfNone(r: Registry)
    ensures OnceOf(r, []) == {}
  {
  }

  lemma PassiveCallNext(d: Run, k: Key)
    requires Passive(d.plan) && k in d.reg.records
    ensures CallNext(d, k) ==
      var call := NextCall(d.plan);
      var d1 := d.(reg := Fired(d.reg, k), plan := Later(d.plan));
      if call.throws then d1.(thrown := true)
      else d1.(reg := if d.reg.records[k].callOnce then UnlistenByKey(Fired(d.reg, k), k).0 else Fired(d.reg, k),
               ok := d.ok && !call.returnsFalse, stopped := d.stopped || call.stops,
               returnValue := d.returnValue && !call.prevents)
    ensures Passive(Later(d.plan))
  {
    hide UnlistenByKey;
  }

  lemma OnceOfOne(r: Registry, k: Key)
    requires k in r.records
    ensures OnceOf(r, [k]) == if r.records[k].callOnce then {k} else {}
    ensures WithRemoved(r.records, {}) == r.records
    ensures WithRemoved(r.records, {k}) == r.records[k := r.records[k].(removed := true)]
  {
  }

  lemma ItsRecord(r: Registry, s: Slot, k: Key)
    requires Inv(r) && s in r.arrays && k in r.arrays[s].items && Live(r, k)
    ensures k in r.listeners && k in r.records && !r.records[k].removed && r.records[k].slot == s && HasArray(r, s)
  {
    assert ArrayOk(r, s, r.arrays[s]);
    assert s in r.arrays.Keys;
  }

  lemma LockedUnlisten(r: Registry, s: Slot, k: Key)
    requires k in r.listeners && k in r.records && !r.records[k].removed
    requires r.records[k].slot == s && HasArray(r, s) && r.arrays[s].locked > 0
    ensures var r' := UnlistenByKey(r, k).0;
      && r'.listeners == r.listeners - {k} && r'.records == r.records[k := r.records[k].(removed := true)]
      && r'.arrays == r.arrays[s := r.arrays[s].(needsCleanup := true)] && r'.fired == r.fired
  {
  }

  // ----- the records of one array

  /** What is still to be fired is what was to be fired at the start. */
  lemma {:induction false} SameLater(r: Registry, r': Registry, items: seq<Key>, gone: set<Key>)
    requires r'.records == WithRemoved(r.records, gone) && forall k :: k in items ==> k !in gone
    ensures LiveItems(r', items) == LiveItems(r, items)
  {
    if items != [] {
      SameLater(r, r', items[1..], gone);
    }
  }

  /** The live records of an array fire in order, up to one whose callback throws. */
  lemma {:induction false} FireTells(d: Run, s: Slot, i: nat, n: nat) returns (keys: seq<Key>)
    requires Passive(d.plan) && !d.thrown && Inv(d.reg) && s in d.reg.arrays && d.reg.arrays[s].locked > 0
    requires i <= n == |d.reg.arrays[s].items|
    ensures var d', live := FireFrom(d, s, i, n), LiveItems(d.reg, d.reg.arrays[s].items[i..]);
      && Told(d, d', keys, {s}) && Passive(d'.plan)
      && keys <= live && (|keys| < |live| ==> d'.thrown)
      && (!d'.thrown ==> d'.ok == (d.ok && !AnyFalse(FirstCalls(d.plan, |keys|))))
      && s in d'.reg.arrays && d'.reg.arrays[s].locked == d.reg.arrays[s].locked
    decreases n - i
  {
    hide Inv, CallNext, LiveItems, FireFrom, Live, Told, Distinct, Passive, AnyFalse, FirstCalls, After;
    var items := d.reg.arrays[s].items;
    FireStep(d, s, i, n);
    LivePlain(d.reg, items, i);
    keys := [];
    if i == n {
      ToldItself(d, s);
      NoCalls(d.plan);
    } else {
      var k, d1 := items[i], d;
      if Live(d.reg, k) {
        d1 := CallNext(d, k);
        OneCall(d, s, k);
        CallKeeps(d, k);
        ToldParts(d, d1, k, {s});
        OnlyOnce(d.reg, s, i, d1.thrown);
        SameLater(d.reg, d1.reg, items[i + 1..], OnceOf(d.reg, Returned([k], d1.thrown)));
        if d1.thrown {
          FireEnds(d1, s, i + 1, n);
          keys := [k];
        } else {
          var more := FireTells(d1, s, i + 1, n);
          keys := [k] + more;
          ToldTransitive(d, d1, FireFrom(d1, s, i + 1, n), [k], more, {s});
          RestOfCalls(d.plan, 1, |more|, false);
        }
      } else {
        keys := FireTells(d, s, i + 1, n);
      }
    }
  }

  lemma FireEnds(d: Run, s: Slot, i: nat, n: nat)
    requires d.thrown
    ensures FireFrom(d, s, i, n) == d
  {
  }

  lemma LivePlain(r: Registry, items: seq<Key>, i: nat)
    requires i <= |items|
    ensures LiveItems(r, items[i..]) ==
      if i == |items| then []
      else if Live(r, items[i]) then [items[i]] + LiveItems(r, items[i + 1..])
      else LiveItems(r, items[i + 1..])
  {
    if i < |items| {
      assert items[i..][1..] == items[i + 1..];
      assert [] + LiveItems(r, items[i + 1..]) == LiveItems(r, items[i + 1..]);
    }
  }

  lemma ToldItself(d: Run, s: Slot)
    requires !d.thrown
    ensures Told(d, d, [], {s})
  {
    ToldNothing(d, d, {s});
  }

  lemma ToldParts(d: Run, d': Run, k: Key, touched: set<Slot>)
    requires Told(d, d', [k], touched)
    ensures d'.reg.records == WithRemoved(d.reg.records, OnceOf(d.reg, Returned([k], d'.thrown)))
    ensures d'.plan == After(d.plan, 1)
  {
  }

  lemma OnlyOnce(r: Registry, s: Slot, i: nat, thrown: bool)
    requires Inv(r) && s in r.arrays && i < |r.arrays[s].items|
    ensures forall k :: k in r.arrays[s].items[i + 1..] ==> k !in OnceOf(r, Returned([r.arrays[s].items[i]], thrown))
  {
    assert ArrayOk(r, s, r.arrays[s]);
  }

  lemma LockTells(d: Run, s: Slot)
    requires HasArray(d.reg, s) && !d.thrown
    ensures Told(d, d.(reg := Lock(d.reg, s), ok := true), [], {s})
  {
    ToldNothing(d, d.(reg := Lock(d.reg, s), ok := true), {s});
  }

  /** Unlocking adds nothing, also when the array was left by an exception. */
  lemma ToldThenUnlock(d: Run, d': Run, keys: seq<Key>, s: Slot)
    requires Told(d, d', keys, {s})
    ensures Told(d, d'.(reg := Unlock(d'.reg, s)), keys, {s})
  {
    hide FirstCalls, After, OnceOf, WithRemoved, Throws, AnyStops, AnyPrevents;
  }

  function HeardAt(r: Registry, s: Slot): seq<Key> {
    if s in r.arrays then LiveItems(r, r.arrays[s].items) else []
  }

  lemma ListenersTell(d: Run, s: Slot) returns (keys: seq<Key>)
    requires Passive(d.plan) && !d.thrown && Inv(d.reg)
    ensures var d', heard := FireListeners(d, s), HeardAt(d.reg, s);
      && Told(d, d', keys, {s}) && Inv(d'.reg) && Passive(d'.plan)
      && UpTo(d.reg, heard, keys, FirstCalls(d.plan, |keys|), d'.thrown)
      && (!d'.thrown ==> d'.ok == !AnyFalse(FirstCalls(d.plan, |keys|)))
  {
    hide Inv, Told, LiveItems, FireFrom, Lock, Unlock, ListenersSafe, Evolves, Passive, UpTo, AnyFalse, FirstCalls;
    ListenersKeep(d, s);
    HeardIsHere(d.reg, s);
    if s in d.reg.arrays {
      QuietArray(d.reg, s);
      LockTells(d, s);
      LockKeeps(d.reg, s);
      Locks(d.reg, s);
      var d0 := d.(reg := Lock(d.reg, s), ok := true);
      var items := d0.reg.arrays[s].items;
      keys := FireTells(d0, s, 0, |items|);
      assert items[0..] == items;
      SameLive(d.reg, d0.reg, items);
      var d1 := FireFrom(d0, s, 0, |items|);
      ToldTransitive(d, d0, d1, [], keys, {s});
      assert [] + keys == keys;
      ToldThenUnlock(d, d1, keys, s);
      TellsThrows(d, d1, keys, {s});
    } else {
      IdleStep(d, s);
      ToldOkay(d, s);
      NoCalls(d.plan);
      keys := [];
      TellsThrows(d, d.(ok := true), keys, {s});
    }
    OneArray(d.reg, s, HeardAt(d.reg, s), keys, FirstCalls(d.plan, |keys|), FireListeners(d, s).thrown);
  }

  lemma ToldOkay(d: Run, s: Slot)
    requires !d.thrown
    ensures Told(d, d.(ok := true), [], {s})
  {
    ToldNothing(d, d.(ok := true), {s});
  }

  lemma TellsThrows(d: Run, d': Run, keys: seq<Key>, touched: set<Slot>)
    requires Told(d, d', keys, touched)
    ensures Throws(FirstCalls(d.plan, |keys|), d'.thrown) && !d.thrown && d'.plan == After(d.plan, |keys|)
    ensures !d'.thrown ==>
      && d'.stopped == (d.stopped || AnyStops(FirstCalls(d.plan, |keys|)))
      && d'.returnValue == (d.returnValue && !AnyPrevents(FirstCalls(d.plan, |keys|)))
    ensures d'.reg.records == WithRemoved(d.reg.records, OnceOf(d.reg, Returned(keys, d'.thrown)))
  {
  }

  lemma Locks(r: Registry, s: Slot)
    requires HasArray(r, s)
    ensures var r' := Lock(r, s);
      && s in r'.arrays && r'.arrays[s].locked > 0 && r'.arrays[s].items == r.arrays[s].items && r'.records == r.records
  {
  }

  // ----- the walk

  function SlotsAlong(p: Phase, order: seq<Source>): set<Slot> {
    set x | x in order :: Slot(p, x)
  }

  /** Arrays that have not been touched still hold what they held. */
  lemma {:induction false} SameHeardLater(
    d: Run, d': Run, keys: seq<Key>, touched: set<Slot>, p: Phase, order: seq<Source>)
    requires Inv(d.reg) && Told(d, d', keys, touched) && SlotsAlong(p, order) !! touched
    requires forall k :: k in OnceOf(d.reg, keys) ==> d.reg.records[k].slot in touched
    ensures Heard(d'.reg, p, order) == Heard(d.reg, p, order)
  {
    hide Inv, Told;
    if order != [] {
      var s := Slot(p, order[0]);
      assert s in SlotsAlong(p, order);
      assert SlotsAlong(p, order[1..]) <= SlotsAlong(p, order);
      SameHeardLater(d, d', keys, touched, p, order[1..]);
      HeardSame(d, d', keys, touched, s);
    }
  }

  lemma HeardSame(d: Run, d': Run, keys: seq<Key>, touched: set<Slot>, s: Slot)
    requires Inv(d.reg) && Told(d, d', keys, touched) && s !in touched
    requires forall k :: k in OnceOf(d.reg, keys) ==> d.reg.records[k].slot in touched
    ensures s in d.reg.arrays <==> s in d'.reg.arrays
    ensures s in d.reg.arrays ==> LiveItems(d'.reg, d'.reg.arrays[s].items) == LiveItems(d.reg, d.reg.arrays[s].items)
  {
    hide WithRemoved, LiveItems, OnceOf, Throws, FirstCalls, After, AnyStops, AnyPrevents;
    if s in d.reg.arrays {
      assert ArrayOk(d.reg, s, d.reg.arrays[s]);
      ReturnedOnce(d.reg, keys, d'.thrown);
      SameLater(d.reg, d'.reg, d.reg.arrays[s].items, OnceOf(d.reg, Returned(keys, d'.thrown)));
    }
  }

  lemma ReturnedOnce(r: Registry, keys: seq<Key>, thrown: bool)
    ensures OnceOf(r, Returned(keys, thrown)) <= OnceOf(r, keys)
  {
  }

  lemma {:induction false} HeardIsHere(r: Registry, s: Slot)
    requires Inv(r)
    ensures forall k :: k in HeardAt(r, s) ==> k in r.records && r.records[k].slot == s
  {
    if s in r.arrays {
      assert ArrayOk(r, s, r.arrays[s]);
      LiveItemsMembers(r, r.arrays[s].items);
    }
  }

  lemma {:induction false} HeardIsAlong(r: Registry, p: Phase, order: seq<Source>)
    requires Inv(r)
    ensures forall k :: k in Heard(r, p, order) ==> k in r.records && r.records[k].slot in SlotsAlong(p, order)
  {
    hide Inv;
    if order != [] {
      var s := Slot(p, order[0]);
      HeardIsAlong(r, p, order[1..]);
      HeardIsHere(r, s);
      assert SlotsAlong(p, order) == {s} + SlotsAlong(p, order[1..]);
    }
  }

  lemma AlongStep(p: Phase, order: seq<Source>, h: nat)
    requires h < |order| && Distinct(order)
    ensures SlotsAlong(p, order[h..]) == {Slot(p, order[h])} + SlotsAlong(p, order[h + 1..])
    ensures SlotsAlong(p, order[h + 1..]) !! {Slot(p, order[h])}
  {
    assert order[h..] == [order[h]] + order[h + 1..];
  }

  /** A dispatch under way: no call so far has ended it. */
  predicate Going(d: Run) {
    Passive(d.plan) && !d.thrown && !d.stopped && (d.ok ==> d.returnValue)
  }

  /** What the calls of a stretch make of the result. */
  ghost predicate Results(d: Run, d': Run, cs: seq<Call>) {
    !d'.thrown ==> d'.ok == (d.ok && !AnyFalse(cs) && !AnyPrevents(cs)) && (d'.ok ==> d'.returnValue)
  }

  /** The next run of a walk, with the result so far. */
  function WithResult(d: Run, d1: Run): Run {
    d1.(ok := d.ok && d1.ok && d1.returnValue)
  }

  /** One step of a walk. */
  lemma StepTells(d: Run, p: Phase, order: seq<Source>, h: nat) returns (d2: Run, keys: seq<Key>)
    requires Going(d) && Inv(d.reg) && h < |order|
    ensures var s := Slot(p, order[h]);
      && Walk(d, p, order, h, false) == Walk(d2, p, order, h + 1, false)
      && Told(d, d2, keys, {s}) && Inv(d2.reg) && Passive(d2.plan)
      && Results(d, d2, FirstCalls(d.plan, |keys|))
      && UpTo(d.reg, HeardAt(d.reg, s), keys, FirstCalls(d.plan, |keys|), d2.thrown)
  {
    hide Inv, FireListeners, Told, UpTo, FirstCalls, Throws, AnyStops, AnyPrevents, AnyFalse, WithRemoved, OnceOf, After;
    var s := Slot(p, order[h]);
    keys := ListenersTell(d, s);
    var d1 := FireListeners(d, s);
    d2 := WithResult(d, d1);
    ToldWithResult(d, d1, keys, {s}, d2);
    TellsThrows(d, d1, keys, {s});
  }

  lemma ToldWithResult(d: Run, d1: Run, keys: seq<Key>, touched: set<Slot>, d2: Run)
    requires Told(d, d1, keys, touched) && d2 == d1.(ok := d2.ok)
    ensures Told(d, d2, keys, touched)
  {
  }

  lemma {:induction false} WalkTells(d: Run, p: Phase, order: seq<Source>, h: nat) returns (keys: seq<Key>)
    requires Going(d) && Inv(d.reg) && Distinct(order) && h <= |order|
    ensures var d', cs := Walk(d, p, order, h, false), FirstCalls(d.plan, |keys|);
      && Told(d, d', keys, SlotsAlong(p, order[h..])) && Passive(d'.plan) && Results(d, d', cs)
      && UpTo(d.reg, Heard(d.reg, p, order[h..]), keys, cs, d'.thrown)
    decreases |order| - h
  {
    hide Inv, FireListeners, Heard, LiveItems, Told, SlotsAlong, Distinct, OnceOf, UpTo, FirstCalls, Results;
    hide WithRemoved, Throws, AnyStops, AnyPrevents, Passive, Walk, Apart;
    HeardUnfold(d.reg, p, order, h);
    keys := [];
    if h == |order| {
      WalkOver(d, p, order, h);
      ToldNone(d, SlotsAlong(p, order[h..]));
      NothingHeard(d);
    } else {
      var s, rest := Slot(p, order[h]), order[h + 1..];
      var d1, first := StepTells(d, p, order, h);
      keys := first;
      TellsThrows(d, d1, first, {s});
      AlongStep(p, order, h);
      var all := SlotsAlong(p, order[h..]);
      ToldMore(d, d1, first, {s}, all);
      HeardIsHere(d.reg, s);
      HeardIsAlong(d.reg, p, rest);
      HeardApart(d.reg, HeardAt(d.reg, s), {s}, Heard(d.reg, p, rest), SlotsAlong(p, rest));
      if d1.stopped || d1.thrown {
        WalkOver(d1, p, order, h + 1);
        EndsHere(d.reg, HeardAt(d.reg, s), Heard(d.reg, p, rest), first, FirstCalls(d.plan, |first|), d1.thrown);
      } else {
        StillGoing(d, d1, FirstCalls(d.plan, |first|));
        OnceIsHeard(d.reg, HeardAt(d.reg, s), first, {s}, FirstCalls(d.plan, |first|), d1.thrown);
        SameHeardLater(d, d1, first, {s}, p, rest);
        var more := WalkTells(d1, p, order, h + 1);
        keys := first + more;
        var d2 := Walk(d1, p, order, h + 1, false);
        ToldMore(d1, d2, more, SlotsAlong(p, rest), all);
        ToldTransitive(d, d1, d2, first, more, all);
        JoinStretches(d, d1, d2, HeardAt(d.reg, s), Heard(d.reg, p, rest), first, more);
      }
    }
  }

  lemma WalkOver(d: Run, p: Phase, order: seq<Source>, h: nat)
    requires d.stopped || d.thrown || h >= |order|
    ensures Walk(d, p, order, h, false) == d && Walk(d, p, order, h, true) == d
  {
  }

  lemma NothingHeard(d: Run)
    requires Going(d)
    ensures UpTo(d.reg, [], [], FirstCalls(d.plan, 0), false) && Results(d, d, FirstCalls(d.plan, 0)) && Passive(d.plan)
  {
  }

  lemma HeardApart(r: Registry, b: seq<Key>, here: set<Slot>, more: seq<Key>, there: set<Slot>)
    requires forall k :: k in b ==> k in r.records && r.records[k].slot in here
    requires forall k :: k in more ==> k in r.records && r.records[k].slot in there
    requires here !! there
    ensures Apart(r, b, more)
  {
  }

  lemma StillGoing(d: Run, d1: Run, cs: seq<Call>)
    requires Going(d) && Passive(d1.plan) && !d1.stopped && !d1.thrown && Results(d, d1, cs)
    ensures Going(d1)
  {
  }

  /** Two stretches of a dispatch, the second one after calls that ended nothing. */
  lemma JoinStretches(
    d: Run, d1: Run, d2: Run, b: seq<Key>, more: seq<Key>, first: seq<Key>, second: seq<Key>)
    requires d1.plan == After(d.plan, |first|) && !d1.thrown && !d.stopped
    requires d1.stopped == (d.stopped || AnyStops(FirstCalls(d.plan, |first|))) && !d1.stopped
    requires exists gone :: d1.reg.records == WithRemoved(d.reg.records, gone)
    requires UpTo(d.reg, b, first, FirstCalls(d.plan, |first|), false)
    requires UpTo(d1.reg, more, second, FirstCalls(d1.plan, |second|), d2.thrown)
    requires Results(d, d1, FirstCalls(d.plan, |first|)) && Results(d1, d2, FirstCalls(d1.plan, |second|))
    ensures first == b
    ensures UpTo(d.reg, b + more, first + second, FirstCalls(d.plan, |first + second|), d2.thrown)
    ensures Results(d, d2, FirstCalls(d.plan, |first + second|))
  {
    hide UpTo, FirstCalls, AnyStops, AnyPrevents, AnyFalse, WithRemoved, Throws;
    var gone :| d1.reg.records == WithRemoved(d.reg.records, gone);
    var cs, ds := FirstCalls(d.plan, |first|), FirstCalls(d1.plan, |second|);
    CallsSplit(d.plan, |first|, |second|);
    RestOfCalls(d.plan, |first|, |second|, d2.thrown);
    SameUpTo(d.reg, d1.reg, more, second, ds, d2.thrown, gone);
    GoesOn(d.reg, b, more, first, cs, second, ds, d2.thrown);
  }

  lemma ToldNone(d: Run, touched: set<Slot>)
    requires !d.thrown
    ensures Told(d, d, [], touched)
  {
    ToldNothing(d, d, touched);
  }

  lemma OnceIsHeard(
    r: Registry, heard: seq<Key>, keys: seq<Key>, touched: set<Slot>, cs: seq<Call>, thrown: bool)
    requires forall k :: k in heard ==> k in r.records && r.records[k].slot in touched
    requires UpTo(r, heard, keys, cs, thrown)
    ensures forall k :: k in OnceOf(r, keys) ==> r.records[k].slot in touched
  {
    assert forall k :: k in keys ==> k in heard;
  }

  // ----- the dispatch

  lemma PhaseTells(d: Run, p: Phase, order: seq<Source>) returns (keys: seq<Key>)
    requires Going(d) && Inv(d.reg) && Distinct(order)
    ensures var d', cs := DispatchPhase(d, p, order, true), FirstCalls(d.plan, |keys|);
      && Told(d, d', keys, SlotsAlong(p, order)) && Inv(d'.reg) && Passive(d'.plan) && Results(d, d', cs)
      && UpTo(d.reg, Heard(d.reg, p, order), keys, cs, d'.thrown)
  {
    hide Inv, Heard, Walk, Told, SlotsAlong, Distinct, PhaseSafe, Evolves, UpTo, Results, FirstCalls, PlanSpares;
    hide AnyStops, AnyPrevents, AnyFalse, Throws, Passive;
    PhaseKeeps(d, p, order);
    PassiveSpares(d.plan, p.typ);
    PhaseShortcut(d, p, order);
    keys := [];
    if p in d.reg.phases {
      var d0 := d.(reg := ResetRemaining(d.reg, p));
      ResetKeeps(d.reg, p);
      ToldNothing(d, d0, SlotsAlong(p, order));
      SameHeard(d.reg, d0.reg, p, order);
      keys := WalkTells(d0, p, order, 0);
      assert order[0..] == order;
      var d' := Walk(d0, p, order, 0, false);
      ToldTransitive(d, d0, d', [], keys, SlotsAlong(p, order));
      assert [] + keys == keys;
      SameRecordsUpTo(d.reg, d0.reg, Heard(d.reg, p, order), keys, FirstCalls(d.plan, |keys|), d'.thrown);
      ResultsOf(d, d0, d', FirstCalls(d.plan, |keys|));
    } else {
      NoPhaseSilent(d.reg, p, order);
      ToldNone(d, SlotsAlong(p, order));
      NothingHeard(d);
    }
  }

  lemma ResultsOf(d: Run, d0: Run, d': Run, cs: seq<Call>)
    requires Results(d0, d', cs) && d0.ok == d.ok
    ensures Results(d, d', cs)
  {
  }

  lemma SameRecordsUpTo(r: Registry, r': Registry, heard: seq<Key>, keys: seq<Key>, cs: seq<Call>, thrown: bool)
    requires r'.records == r.records && UpTo(r', heard, keys, cs, thrown)
    ensures UpTo(r, heard, keys, cs, thrown)
  {
    assert WithRemoved(r.records, {}) == r.records;
    SameUpTo(r, r', heard, keys, cs, thrown, {});
  }

  lemma {:induction false} OtherPhase(t: EventType, path: seq<Source>, path': seq<Source>)
    ensures SlotsAlong(Phase(t, false), path) !! SlotsAlong(Phase(t, true), path')
  {
  }

  /** What can be heard of a dispatch: the live capture listeners from the root down to the target,
      then the live bubble listeners from the target up, each source's in order of registration. */
  function HeardOf(r: Registry, path: seq<Source>, t: EventType): seq<Key> {
    Heard(r, Phase(t, true), Reverse(path)) + Heard(r, Phase(t, false), path)
  }

  function SlotsOn(path: seq<Source>, t: EventType): set<Slot> {
    SlotsAlong(Phase(t, true), Reverse(path)) + SlotsAlong(Phase(t, false), path)
  }

  /** When the callbacks change no registration, `dispatchEvent` makes the calls that can be
      heard, up to one that throws and up to the end of the array in which one stops the event.
      Unless it throws it returns false exactly when one of the calls returned false or prevented
      the default. The call-once listeners whose calls returned are gone afterwards, and no other
      listener is; the arrays of other types or sources are as they were. */
  lemma PassiveDispatchExactly(r: Registry, path: seq<Source>, t: EventType, plan: Plan) returns (keys: seq<Key>)
    requires Inv(r) && Distinct(path) && Passive(plan)
    ensures var d, cs := Dispatch(r, path, t, plan, true), FirstCalls(plan, |keys|);
      && UpTo(r, HeardOf(r, path, t), keys, cs, d.thrown)
      && d.reg.fired == r.fired + keys
      && (!d.thrown ==> (d.ok <==> !AnyFalse(cs) && !AnyPrevents(cs)))
      && Inv(d.reg) && SameArrays(r, d.reg, SlotsOn(path, t))
      && var gone := OnceOf(r, Returned(keys, d.thrown));
      && d.reg.listeners == r.listeners - gone && d.reg.records == WithRemoved(r.records, gone)
  {
    hide Inv, Heard, DispatchPhase, SlotsAlong, WithRemoved, OnceOf, SameArrays, Told, DispatchSafe, Evolves, UpTo;
    hide Results, FirstCalls, AnyStops, AnyPrevents, AnyFalse, Throws, Passive, After, Apart;
    DispatchKeeps(r, path, t, plan);
    var capture, bubble, down := Phase(t, true), Phase(t, false), Reverse(path);
    assert Distinct(down) by { ReverseDistinct(path); }
    var d0 := Run(r, plan, true, false, true, false);
    keys := [];
    if t in r.types {
      var d1 := DispatchPhase(d0, capture, down, true);
      var first := PhaseTells(d0, capture, down);
      keys := first;
      TellsThrows(d0, d1, first, SlotsAlong(capture, down));
      OtherPhase(t, path, down);
      HeardIsAlong(r, capture, down);
      HeardIsAlong(r, bubble, path);
      HeardApart(r, Heard(r, capture, down), SlotsAlong(capture, down), Heard(r, bubble, path), SlotsAlong(bubble, path));
      ToldMore(d0, d1, first, SlotsAlong(capture, down), SlotsOn(path, t));
      if d1.stopped || d1.thrown {
        PhaseOver(d1, bubble, path);
        var d2 := DispatchPhase(d1, bubble, path, true);
        EndsHere(r, Heard(r, capture, down), Heard(r, bubble, path), first, FirstCalls(plan, |first|), d1.thrown);
        ToldRecount(d0, d1, d2, first, SlotsOn(path, t));
        ToldUnfold(d0, d2, first, SlotsOn(path, t));
        ResultsUnfold(d0, d1, FirstCalls(plan, |first|));
      } else {
        StillGoing(d0, d1, FirstCalls(plan, |first|));
        OnceIsHeard(
          r, Heard(r, capture, down), first, SlotsAlong(capture, down), FirstCalls(plan, |first|), d1.thrown);
        SameHeardLater(d0, d1, first, SlotsAlong(capture, down), bubble, path);
        var more := PhaseTells(d1, bubble, path);
        var d2 := DispatchPhase(d1, bubble, path, true);
        keys := first + more;
        ToldMore(d1, d2, more, SlotsAlong(bubble, path), SlotsOn(path, t));
        ToldTransitive(d0, d1, d2, first, more, SlotsOn(path, t));
        JoinStretches(d0, d1, d2, Heard(r, capture, down), Heard(r, bubble, path), first, more);
        ToldUnfold(d0, d2, keys, SlotsOn(path, t));
        ResultsUnfold(d0, d2, FirstCalls(plan, |keys|));
      }
    } else {
      NoTypeSilent(r, t, path);
      assert HeardOf(r, path, t) == [] && Returned([], false) == [];
      ToldNone(d0, SlotsOn(path, t));
      NothingHeard(d0);
      ToldUnfold(d0, d0, [], SlotsOn(path, t));
      ResultsUnfold(d0, d0, FirstCalls(plan, 0));
    }
  }

  lemma ReverseDistinct(path: seq<Source>)
    requires Distinct(path)
    ensures Distinct(Reverse(path))
  {
  }

  lemma PhaseOver(d: Run, p: Phase, order: seq<Source>)
    requires d.stopped || d.thrown
    ensures var d' := DispatchPhase(d, p, order, true);
      d' == d.(reg := d.reg.(phases := d'.reg.phases))
  {
  }

  lemma ToldRecount(d: Run, d1: Run, d2: Run, keys: seq<Key>, touched: set<Slot>)
    requires Told(d, d1, keys, touched) && d2 == d1.(reg := d1.reg.(phases := d2.reg.phases))
    ensures Told(d, d2, keys, touched)
  {
  }

  lemma ToldUnfold(d: Run, d': Run, keys: seq<Key>, touched: set<Slot>)
    requires Told(d, d', keys, touched)
    ensures d'.reg.fired == d.reg.fired + keys
    ensures d'.reg.listeners == d.reg.listeners - OnceOf(d.reg, Returned(keys, d'.thrown))
    ensures d'.reg.records == WithRemoved(d.reg.records, OnceOf(d.reg, Returned(keys, d'.thrown)))
    ensures SameArrays(d.reg, d'.reg, touched)
  {
  }

  lemma ResultsUnfold(d: Run, d': Run, cs: seq<Call>)
    requires Results(d, d', cs) && d.ok
    ensures !d'.thrown ==> (d'.ok <==> !AnyFalse(cs) && !AnyPrevents(cs))
  {
  }

  // ----- when nothing ends the dispatch, when a call stops the event, when one throws

  /** When the callbacks only return, everything is heard. */
  lemma QuietDispatchExactly(r: Registry, path: seq<Source>, t: EventType)
    requires Inv(r) && Distinct(path)
    ensures var d, keys := Dispatch(r, path, t, Quiet, true), HeardOf(r, path, t);
      && d.ok && !d.thrown && Inv(d.reg)
      && d.reg.fired == r.fired + keys
      && d.reg.listeners == r.listeners - OnceOf(r, keys)
      && d.reg.records == WithRemoved(r.records, OnceOf(r, keys))
      && SameArrays(r, d.reg, SlotsOn(path, t))
  {
    hide Inv, HeardOf, Dispatch, SlotsOn, WithRemoved, OnceOf, SameArrays;
    var keys := PassiveDispatchExactly(r, path, t, Quiet);
    QuietCalls(|keys|);
    assert !Dispatch(r, path, t, Quiet, true).thrown;
    assert keys == HeardOf(r, path, t);
  }

  /** When call n stops the event, the rest of its array is still heard, and nothing else. */
  lemma StopEndsWithArray(r: Registry, path: seq<Source>, t: EventType, n: nat) returns (m: nat)
    requires Inv(r) && Distinct(path) && n < |HeardOf(r, path, t)|
    ensures var heard := HeardOf(r, path, t);
      var d := Dispatch(r, path, t, QuietThen(n, QUIET_CALL.(stops := true)), true);
      && n < m <= |heard| && d.reg.fired == r.fired + heard[..m] && d.ok && !d.thrown
      && (forall j :: n <= j < m ==> SameArray(r, heard[n], heard[j]))
      && (m < |heard| ==> !SameArray(r, heard[n], heard[m]))
  {
    hide Inv, HeardOf, Dispatch, SlotsOn, WithRemoved, OnceOf, SameArrays, Passive, QuietThen;
    var heard, call := HeardOf(r, path, t), QUIET_CALL.(stops := true);
    CallsOfQuietThen(n, call, 0);
    var keys := PassiveDispatchExactly(r, path, t, QuietThen(n, call));
    m := |keys|;
    CallsOfQuietThen(n, call, m);
    assert keys == heard[..m];
    HeardIsKnown(r, path, t);
  }

  lemma HeardIsKnown(r: Registry, path: seq<Source>, t: EventType)
    requires Inv(r)
    ensures forall k :: k in HeardOf(r, path, t) ==> k in r.records
  {
    hide Inv, Heard;
    HeardIsAlong(r, Phase(t, true), Reverse(path));
    HeardIsAlong(r, Phase(t, false), path);
  }

  /** When call n throws, nothing is heard after it, and its listener stays even if call-once. */
  lemma ThrowEndsAtOnce(r: Registry, path: seq<Source>, t: EventType, n: nat)
    requires Inv(r) && Distinct(path) && n < |HeardOf(r, path, t)|
    ensures var heard := HeardOf(r, path, t);
      var d := Dispatch(r, path, t, QuietThen(n, QUIET_CALL.(throws := true)), true);
      && d.thrown && d.reg.fired == r.fired + heard[..n + 1]
      && d.reg.listeners == r.listeners - OnceOf(r, heard[..n]) && Inv(d.reg)
  {
    hide Inv, HeardOf, Dispatch, SlotsOn, WithRemoved, OnceOf, SameArrays, Passive, QuietThen;
    var heard, call := HeardOf(r, path, t), QUIET_CALL.(throws := true);
    CallsOfQuietThen(n, call, 0);
    var keys := PassiveDispatchExactly(r, path, t, QuietThen(n, call));
    var cs := FirstCalls(QuietThen(n, call), |keys|);
    CallsOfQuietThen(n, call, |keys|);
    assert keys == heard[..|keys|];
    assert n < |cs| ==> cs[n].throws;
    assert heard[..n + 1][..n] == heard[..n];
  }
}
