/** What the memory sampler's slots hold after any run, and which samples it reports. */
module Sampler {
  import opened Numbers

  datatype Sample = Sample(timestamp: int, reading: int)

  const MIN_INT := -0x8000_0000

  function Times(s: seq<Sample>): (t: seq<int>)
    ensures |t| == |s| && forall i :: 0 <= i < |s| ==> t[i] == s[i].timestamp
  {
    if s == [] then [] else [s[0].timestamp] + Times(s[1..])
  }

  // ----- ticks

  /** The clock is read for the scan, and again for the new sample. */
  datatype Tick = Tick(now: int, sample: Sample)

  /** The scan up to slot n: the first slot with the greatest age in 32 bits. */
  function Oldest(slots: seq<Sample>, now: int, n: nat): (r: (nat, int))
    requires n <= |slots|
    ensures r.0 < |slots| || r.0 == 0
  {
    if n == 0 then (0, MIN_INT)
    else
      var r := Oldest(slots, now, n - 1);
      var age := ToInt32(now - slots[n - 1].timestamp);
      if r.1 < age then (n - 1, age) else r
  }

  function Step(slots: seq<Sample>, t: Tick): (r: seq<Sample>)
    requires slots != []
    ensures |r| == |slots|
  {
    slots[Oldest(slots, t.now, |slots|).0 := t.sample]
  }

  function Run(slots: seq<Sample>, ticks: seq<Tick>): (r: seq<Sample>)
    requires slots != []
    ensures |r| == |slots|
    decreases |ticks|
  {
    if ticks == [] then slots else Run(Step(slots, ticks[0]), ticks[1..])
  }

  // ----- the newest samples

  predicate InOrder(s: seq<Sample>) {
    forall i, j :: 0 <= i < j < |s| ==> s[i].timestamp <= s[j].timestamp
  }

  /** The clock never goes back, and the n newest samples are younger than 2^31 ms. */
  predicate Timely(history: seq<Sample>, n: nat, ticks: seq<Tick>)
    requires 0 < n <= |history|
    decreases |ticks|
  {
    ticks != [] ==>
      var t := ticks[0];
      && history[|history| - 1].timestamp <= t.now <= t.sample.timestamp
      && t.now - history[|history| - n].timestamp < 0x8000_0000
      && Timely(history + [t.sample], n, ticks[1..])
  }

  function Taken(ticks: seq<Tick>): seq<Sample> {
    if ticks == [] then [] else [ticks[0].sample] + Taken(ticks[1..])
  }

  function Newest(history: seq<Sample>, n: nat): seq<Sample>
    requires n <= |history|
  {
    history[|history| - n..]
  }

  /** The slots hold the newest times of the history, and only samples from it. */
  ghost predicate HoldsNewest(slots: seq<Sample>, history: seq<Sample>)
    requires |slots| <= |history|
  {
    && multiset(Times(slots)) == multiset(Times(Newest(history, |slots|)))
    && multiset(slots) <= multiset(history)
  }

  lemma {:induction false} OldestIsFirst(slots: seq<Sample>, now: int, n: nat)
    requires n <= |slots|
    requires forall i :: 0 <= i < n ==> 0 <= now - slots[i].timestamp < 0x8000_0000
    ensures var r := Oldest(slots, now, n);
      if n == 0 then r == (0, MIN_INT)
      else
        && r.0 < n && r.1 == now - slots[r.0].timestamp
        && (forall i :: 0 <= i < r.0 ==> slots[i].timestamp > slots[r.0].timestamp)
        && (forall i :: 0 <= i < n ==> slots[i].timestamp >= slots[r.0].timestamp)
  {
    if n > 0 {
      OldestIsFirst(slots, now, n - 1);
    }
  }

  lemma {:induction false} TimesMembers(s: seq<Sample>, t: int)
    ensures t in multiset(Times(s)) <==> exists i :: 0 <= i < |s| && s[i].timestamp == t
  {
    assert t in multiset(Times(s)) <==> t in Times(s);
  }

  lemma SwapMultiset<T>(s: seq<T>, i: nat, x: T)
    requires i < |s|
    ensures multiset(s[i := x]) == multiset(s) - multiset{s[i]} + multiset{x}
  {
    assert s == s[..i] + [s[i]] + s[i + 1..];
    assert s[i := x] == s[..i] + [x] + s[i + 1..];
  }

  lemma ShiftMultiset<T>(s: seq<T>, x: T)
    requires s != []
    ensures multiset(s[1..] + [x]) == multiset(s) - multiset{s[0]} + multiset{x}
  {
    assert s == [s[0]] + s[1..];
  }

  lemma {:induction false} TimesReplaced(slots: seq<Sample>, history: seq<Sample>, i: nat, x: Sample)
    requires i < |slots| <= |history|
    requires slots[i].timestamp == Newest(history, |slots|)[0].timestamp
    requires multiset(Times(slots)) == multiset(Times(Newest(history, |slots|)))
    ensures multiset(Times(slots[i := x])) == multiset(Times(Newest(history + [x], |slots|)))
  {
    hide Times;
    var newest := Newest(history, |slots|);
    SwapMultiset(Times(slots), i, x.timestamp);
    assert Times(slots[i := x]) == Times(slots)[i := x.timestamp];
    ShiftMultiset(Times(newest), x.timestamp);
    assert Times(Newest(history + [x], |slots|)) == Times(newest)[1..] + [x.timestamp];
  }

  lemma {:induction false} StepKeepsNewest(slots: seq<Sample>, history: seq<Sample>, t: Tick)
    requires 0 < |slots| <= |history| && InOrder(history) && HoldsNewest(slots, history)
    requires Timely(history, |slots|, [t])
    ensures InOrder(history + [t.sample]) && HoldsNewest(Step(slots, t), history + [t.sample])
  {
    hide Times, Newest, Oldest;
    SlotsYoung(slots, history, t);
    OldestIsFirst(slots, t.now, |slots|);
    var i := Oldest(slots, t.now, |slots|).0;
    EvictsFirst(slots, history, i);
    TimesReplaced(slots, history, i, t.sample);
    SwapMultiset(slots, i, t.sample);
  }

  /** Every slot's time is one of the newest in the history. */
  lemma {:induction false} SlotsYoung(slots: seq<Sample>, history: seq<Sample>, t: Tick)
    requires 0 < |slots| <= |history| && InOrder(history) && HoldsNewest(slots, history)
    requires Timely(history, |slots|, [t])
    ensures forall i :: 0 <= i < |slots| ==> 0 <= t.now - slots[i].timestamp < 0x8000_0000
  {
    hide Times;
    var newest := Newest(history, |slots|);
    forall i | 0 <= i < |slots| ensures 0 <= t.now - slots[i].timestamp < 0x8000_0000 {
      TimesMembers(slots, slots[i].timestamp);
      TimesMembers(newest, slots[i].timestamp);
    }
  }

  /** The slot of least time has the time that leaves the newest. */
  lemma {:induction false} EvictsFirst(slots: seq<Sample>, history: seq<Sample>, i: nat)
    requires 0 < |slots| <= |history| && InOrder(history) && HoldsNewest(slots, history)
    requires i < |slots| && forall j :: 0 <= j < |slots| ==> slots[j].timestamp >= slots[i].timestamp
    ensures slots[i].timestamp == Newest(history, |slots|)[0].timestamp
  {
    hide Times;
    var newest := Newest(history, |slots|);
    TimesMembers(slots, newest[0].timestamp);
    TimesMembers(newest, newest[0].timestamp);
    TimesMembers(slots, slots[i].timestamp);
    TimesMembers(newest, slots[i].timestamp);
  }

  lemma TimelyFirst(history: seq<Sample>, n: nat, ticks: seq<Tick>)
    requires 0 < n <= |history| && ticks != [] && Timely(history, n, ticks)
    ensures Timely(history, n, [ticks[0]]) && Timely(history + [ticks[0].sample], n, ticks[1..])
  {
    assert [ticks[0]][1..] == [];
  }

  /** After any run the slots hold the newest samples ever taken. */
  lemma {:induction false} RunKeepsNewest(slots: seq<Sample>, history: seq<Sample>, ticks: seq<Tick>)
    requires 0 < |slots| <= |history| && InOrder(history) && HoldsNewest(slots, history)
    requires Timely(history, |slots|, ticks)
    ensures |slots| <= |history + Taken(ticks)|
    ensures HoldsNewest(Run(slots, ticks), history + Taken(ticks))
    decreases |ticks|
  {
    hide HoldsNewest, InOrder, Step, Newest, Times, Timely;
    if ticks == [] {
      assert history + Taken(ticks) == history;
    } else {
      var t := ticks[0];
      TimelyFirst(history, |slots|, ticks);
      StepKeepsNewest(slots, history, t);
      RunKeepsNewest(Step(slots, t), history + [t.sample], ticks[1..]);
      TakenFirst(history, ticks);
    }
  }

  lemma TakenFirst(history: seq<Sample>, ticks: seq<Tick>)
    requires ticks != []
    ensures history + [ticks[0].sample] + Taken(ticks[1..]) == history + Taken(ticks)
  {
    assert history + ([ticks[0].sample] + Taken(ticks[1..])) == history + [ticks[0].sample] + Taken(ticks[1..]);
  }

  /** The same from the first fill, which counts as samples taken. */
  lemma FromFirstFill(fill: seq<Sample>, ticks: seq<Tick>)
    requires fill != [] && InOrder(fill) && Timely(fill, |fill|, ticks)
    ensures HoldsNewest(Run(fill, ticks), fill + Taken(ticks))
  {
    assert Newest(fill, |fill|) == fill;
    RunKeepsNewest(fill, fill, ticks);
  }

  // ----- reporting

  /** The slots before n with an age strictly between the bounds, in order. */
  function Window(slots: seq<Sample>, now: int, low: int, high: int, n: nat): (w: seq<nat>)
    requires n <= |slots|
    ensures forall k :: 0 <= k < |w| ==> w[k] < n
    ensures forall j, k :: 0 <= j < k < |w| ==> w[j] < w[k]
    ensures forall i: nat :: i in w <==> i < n && low < now - slots[i].timestamp < high
  {
    if n == 0 then []
    else
      var w := Window(slots, now, low, high, n - 1);
      if low < now - slots[n - 1].timestamp < high then w + [n - 1] else w
  }

  predicate Before(slots: seq<Sample>, i: nat, j: nat)
    requires i < |slots| && j < |slots|
  {
    slots[i].timestamp > slots[j].timestamp || (slots[i].timestamp == slots[j].timestamp && i < j)
  }

  predicate Indexes(slots: seq<Sample>, w: seq<nat>) {
    forall k :: 0 <= k < |w| ==> w[k] < |slots|
  }

  /** Newest first, and equal times in slot order. */
  predicate NewestFirst(slots: seq<Sample>, w: seq<nat>)
    requires Indexes(slots, w)
  {
    forall j, k :: 0 <= j < k < |w| ==> Before(slots, w[j], w[k])
  }

  function Inserted(slots: seq<Sample>, i: nat, w: seq<nat>): (r: seq<nat>)
    requires i < |slots| && Indexes(slots, w)
    ensures Indexes(slots, r) && multiset(r) == multiset(w) + multiset{i}
  {
    if w == [] then [i]
    else if slots[w[0]].timestamp > slots[i].timestamp then
      assert w == [w[0]] + w[1..];
      [w[0]] + Inserted(slots, i, w[1..])
    else [i] + w
  }

  /** A stable sort by descending time. */
  function SortedNewest(slots: seq<Sample>, w: seq<nat>): (r: seq<nat>)
    requires Indexes(slots, w)
    ensures Indexes(slots, r) && multiset(r) == multiset(w)
  {
    if w == [] then []
    else
      assert w == [w[0]] + w[1..];
      Inserted(slots, w[0], SortedNewest(slots, w[1..]))
  }

  lemma {:induction false} InsertedOrders(slots: seq<Sample>, i: nat, w: seq<nat>)
    requires i < |slots| && Indexes(slots, w) && NewestFirst(slots, w)
    requires forall k :: 0 <= k < |w| ==> i < w[k]
    ensures NewestFirst(slots, Inserted(slots, i, w))
  {
    if w != [] && slots[w[0]].timestamp > slots[i].timestamp {
      InsertedOrders(slots, i, w[1..]);
      var r := Inserted(slots, i, w[1..]);
      forall k | 0 <= k < |r| ensures Before(slots, w[0], r[k]) {
        assert r[k] in multiset(r);
        assert r[k] == i || r[k] in w[1..];
      }
    }
  }

  lemma {:induction false} SortedOrders(slots: seq<Sample>, w: seq<nat>)
    requires Indexes(slots, w) && forall j, k :: 0 <= j < k < |w| ==> w[j] < w[k]
    ensures NewestFirst(slots, SortedNewest(slots, w))
  {
    if w != [] {
      SortedOrders(slots, w[1..]);
      var r := SortedNewest(slots, w[1..]);
      forall k | 0 <= k < |r| ensures w[0] < r[k] {
        assert r[k] in multiset(r);
        assert r[k] in w[1..];
      }
      InsertedOrders(slots, w[0], r);
    }
  }

  /** The window in milliseconds, in 32-bit arithmetic; minutes not above zero mean the whole
      store time. */
  function LowerBound(checkTime: int): int {
    ToInt32(ToInt32(checkTime * 1000) * 2)
  }

  function UpperBound(lastTimeMin: int, storeTime: int): int {
    if lastTimeMin > 0 then ToInt32(ToInt32(lastTimeMin * 60) * 1000) else ToInt32(storeTime * 1000)
  }

  /** The slots reported; the last slot is left out. */
  function Report(slots: seq<Sample>, now: int, low: int, high: int): seq<nat>
    requires slots != []
  {
    SortedNewest(slots, Window(slots, now, low, high, |slots| - 1))
  }

  /** What is left of a number in 32 bits: the number itself if it fits. */
  predicate Narrowed(x: int, exact: int) {
    && -0x8000_0000 <= x < 0x8000_0000 && (x - exact) % 0x1_0000_0000 == 0
    && (-0x8000_0000 <= exact < 0x8000_0000 ==> x == exact)
  }

  lemma NarrowsOnce(x: int)
    ensures Narrowed(ToInt32(x), x)
  {
  }

  lemma NarrowsTwice(x: int, factor: int)
    ensures Narrowed(ToInt32(ToInt32(x) * factor), x * factor)
  {
    NarrowsOnce(x);
    NarrowsOnce(ToInt32(x) * factor);
    var y := ToInt32(x);
    var q := (x - y) / 0x1_0000_0000;
    assert x == y + 0x1_0000_0000 * q;
    assert x * factor == y * factor + 0x1_0000_0000 * (q * factor);
    hide ToInt32;
    SameRest(ToInt32(y * factor), y * factor, q * factor);
  }

  lemma SameRest(x: int, y: int, q: int)
    requires Narrowed(x, y)
    ensures Narrowed(x, y + 0x1_0000_0000 * q)
  {
    var k := (x - y) / 0x1_0000_0000;
    assert x - (y + 0x1_0000_0000 * q) == 0x1_0000_0000 * (k - q);
  }

  lemma BoundsNarrow(checkTime: int, lastTimeMin: int, storeTime: int)
    ensures Narrowed(LowerBound(checkTime), checkTime * 2000)
    ensures Narrowed(
      UpperBound(lastTimeMin, storeTime), if lastTimeMin > 0 then lastTimeMin * 60000 else storeTime * 1000)
  {
    NarrowsTwice(checkTime * 1000, 2);
    NarrowsTwice(lastTimeMin * 60, 1000);
    NarrowsOnce(storeTime * 1000);
  }

  lemma SameMembers(r: seq<nat>, w: seq<nat>, i: nat)
    requires multiset(r) == multiset(w)
    ensures i in r <==> i in w
  {
    assert i in multiset(r) <==> i in multiset(w);
  }

  /** The report is exactly the slots but the last whose age lies strictly between two check times
      and the time asked for, both narrowed to 32 bits, each once, newest first. */
  lemma ReportExactly(
    slots: seq<Sample>, now: int, checkTime: int, lastTimeMin: int, storeTime: int, i: nat) returns (low: int, high: int)
    requires slots != []
    ensures Narrowed(low, checkTime * 2000)
    ensures Narrowed(high, if lastTimeMin > 0 then lastTimeMin * 60000 else storeTime * 1000)
    ensures var r := Report(slots, now, LowerBound(checkTime), UpperBound(lastTimeMin, storeTime));
      && Indexes(slots, r) && NewestFirst(slots, r)
      && (i in r <==> i < |slots| - 1 && low < now - slots[i].timestamp < high)
      && (forall j, k :: 0 <= j < k < |r| ==> r[j] != r[k])
  {
    hide LowerBound, UpperBound, Window, SortedNewest, Narrowed;
    BoundsNarrow(checkTime, lastTimeMin, storeTime);
    low, high := LowerBound(checkTime), UpperBound(lastTimeMin, storeTime);
    var w := Window(slots, now, low, high, |slots| - 1);
    SortedOrders(slots, w);
    var r := SortedNewest(slots, w);
    SameMembers(r, w, i);
    assert forall j, k :: 0 <= j < k < |r| ==> Before(slots, r[j], r[k]);
  }
}
