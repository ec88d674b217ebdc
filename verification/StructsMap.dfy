/** `goog.structs.Map`: a key/value object beside a key array that is cleaned lazily. Between
    cleanings the array may hold keys that have been removed, and keys twice. */
module StructsMap {
  import opened Wrappers

  type Key = string

  /** Assigning to this name makes no own property of an object. */
  const PROTO: Key := "__proto__"

  datatype State<V> = State(entries: map<Key, V>, keys: seq<Key>, count: int, version: int)

  datatype Op<V> = Set(key: Key, value: V) | Remove(key: Key) | Clear | GetKeys

  function Fresh<V>(): State<V> {
    State(map[], [], 0, 0)
  }

  // ----- cleanupKeysArray_

  /** First pass: the keys that are still in the map. */
  function Present<V>(keys: seq<Key>, m: map<Key, V>): seq<Key> {
    if keys == [] then []
    else Present(keys[..|keys| - 1], m) + if keys[|keys| - 1] in m then [keys[|keys| - 1]] else []
  }

  /** Second pass: the first occurrence of every key. The pass notes the keys it has seen in an
      object of its own. */
  function Firsts(keys: seq<Key>): seq<Key> {
    if keys == [] then []
    else
      var k, rest := keys[|keys| - 1], keys[..|keys| - 1];
      Firsts(rest) + if k in rest && k != PROTO then [] else [k]
  }

  /** Each pass runs only when the lengths still differ. */
  function Cleaned<V>(keys: seq<Key>, m: map<Key, V>, count: int): seq<Key> {
    var present := if count != |keys| then Present(keys, m) else keys;
    if count != |present| then Firsts(present) else present
  }

  function CleanUp<V>(s: State<V>): State<V> {
    s.(keys := Cleaned(s.keys, s.entries, s.count))
  }

  // ----- the operations

  function Apply<V>(s: State<V>, op: Op<V>): State<V> {
    match op
    case Set(k, v) =>
      var s1 := if k in s.entries then s else s.(count := s.count + 1, keys := s.keys + [k], version := s.version + 1);
      if k == PROTO then s1 else s1.(entries := s1.entries[k := v])
    case Remove(k) =>
      if k !in s.entries then s
      else
        var s1 := s.(entries := s.entries - {k}, count := s.count - 1, version := s.version + 1);
        if |s1.keys| > 2 * s1.count then CleanUp(s1) else s1
    case Clear => State(map[], [], 0, 0)
    case GetKeys => CleanUp(s)
  }

  function Run<V>(s: State<V>, ops: seq<Op<V>>): State<V>
    decreases |ops|
  {
    if ops == [] then s else Run(Apply(s, ops[0]), ops[1..])
  }

  /** The mathematical map the operations are meant to act on. */
  function ApplyMap<V>(m: map<Key, V>, op: Op<V>): map<Key, V> {
    match op
    case Set(k, v) => m[k := v]
    case Remove(k) => m - {k}
    case Clear => map[]
    case GetKeys => m
  }

  function RunMap<V>(m: map<Key, V>, ops: seq<Op<V>>): map<Key, V>
    decreases |ops|
  {
    if ops == [] then m else RunMap(ApplyMap(m, ops[0]), ops[1..])
  }

  // ----- the invariant

  ghost predicate NoDuplicates(keys: seq<Key>) {
    forall i, j :: 0 <= i < j < |keys| ==> keys[i] != keys[j]
  }

  function Members(keys: seq<Key>): set<Key> {
    set k | k in keys
  }

  /** Every key of the map is in the key array. */
  ghost predicate Covered<V>(s: State<V>) {
    s.entries.Keys <= Members(s.keys) && PROTO !in s.entries
  }

  /** And `count_` is the number of entries. */
  ghost predicate Consistent<V>(s: State<V>) {
    Covered(s) && s.count == |s.entries|
  }

  ghost predicate Valid<V>(s: State<V>) {
    Consistent(s) && |s.keys| <= 2 * s.count
  }

  ghost predicate Clean<V>(s: State<V>) {
    NoDuplicates(s.keys) && Members(s.keys) == s.entries.Keys && |s.keys| == s.count
  }

  // ----- cleaning

  lemma {:induction false} PresentMembers<V>(keys: seq<Key>, m: map<Key, V>)
    ensures Members(Present(keys, m)) == Members(keys) * m.Keys
  {
    if keys != [] {
      var k, rest := keys[|keys| - 1], keys[..|keys| - 1];
      PresentMembers(rest, m);
      assert keys == rest + [k];
      assert Members(keys) == Members(rest) + {k};
      var tail := if k in m then [k] else [];
      assert Members(Present(rest, m) + tail) == Members(Present(rest, m)) + Members(tail);
    }
  }

  lemma {:induction false} FirstsMembers(keys: seq<Key>)
    ensures Members(Firsts(keys)) == Members(keys)
    ensures PROTO !in keys ==> NoDuplicates(Firsts(keys)) && |Firsts(keys)| == |Members(keys)|
  {
    hide Members, NoDuplicates;
    NoMembers();
    if keys != [] {
      var k, rest := keys[|keys| - 1], keys[..|keys| - 1];
      FirstsMembers(rest);
      MembersLast(rest, k);
      MembersLast(Firsts(rest), k);
      assert keys == rest + [k];
      assert Firsts(rest) + [] == Firsts(rest);
      assert k in Members(rest) ==> Members(rest) + {k} == Members(rest);
    }
  }

  lemma {:induction false} MembersSize(keys: seq<Key>)
    ensures |Members(keys)| <= |keys| && (|Members(keys)| == |keys| ==> NoDuplicates(keys))
  {
    hide Members, NoDuplicates;
    NoMembers();
    if keys != [] {
      var k, rest := keys[|keys| - 1], keys[..|keys| - 1];
      MembersSize(rest);
      MembersLast(rest, k);
      assert keys == rest + [k];
      assert k in Members(rest) ==> Members(rest) + {k} == Members(rest);
    }
  }

  lemma NoMembers()
    ensures Members([]) == {} && NoDuplicates([])
  {
  }

  lemma MembersLast(rest: seq<Key>, k: Key)
    ensures Members(rest + [k]) == Members(rest) + {k}
    ensures k in rest <==> k in Members(rest)
    ensures NoDuplicates(rest + [k]) <==> NoDuplicates(rest) && k !in rest
  {
    var keys := rest + [k];
    assert keys[|rest|] == k && forall i :: 0 <= i < |rest| ==> keys[i] == rest[i];
    assert forall i :: 0 <= i < |rest| && rest[i] == k ==> keys[i] == keys[|rest|];
  }

  lemma SubsetOfSameSize(a: set<Key>, b: set<Key>)
    requires a <= b && |b| <= |a|
    ensures a == b
  {
    assert b == a + (b - a);
  }

  /** A key array that covers the keys of the map and has their number lists them once each. */
  lemma RightLength<V>(keys: seq<Key>, m: map<Key, V>)
    requires m.Keys <= Members(keys) && |keys| == |m|
    ensures NoDuplicates(keys) && Members(keys) == m.Keys
  {
    MembersSize(keys);
    assert |m| == |m.Keys|;
    SubsetOfSameSize(m.Keys, Members(keys));
  }

  /** After `cleanupKeysArray_` the key array lists the keys of the map once each, although a
      pass is skipped whenever the lengths happen to agree. */
  lemma CleanUpCleans<V>(s: State<V>)
    requires Consistent(s)
    ensures Clean(CleanUp(s))
  {
    hide NoDuplicates, Members;
    var keys, m := s.keys, s.entries;
    if s.count == |keys| {
      RightLength(keys, m);
    } else {
      var present := Present(keys, m);
      PresentMembers(keys, m);
      assert Members(present) == m.Keys;
      NotMember(present, PROTO);
      if s.count == |present| {
        RightLength(present, m);
      } else {
        FirstsMembers(present);
        assert |m| == |m.Keys|;
      }
    }
  }

  lemma NotMember(keys: seq<Key>, k: Key)
    ensures k in Members(keys) <==> k in keys
  {
  }

  /** The first place of a key. */
  function Place(keys: seq<Key>, k: Key): (i: nat)
    requires k in keys
    ensures i < |keys| && keys[i] == k && forall j :: 0 <= j < i ==> keys[j] != k
  {
    if keys[0] == k then 0 else 1 + Place(keys[1..], k)
  }

  lemma PlaceInMore(rest: seq<Key>, last: Key, k: Key)
    requires k in rest || k == last
    ensures k in rest + [last] && Place(rest + [last], k) == if k in rest then Place(rest, k) else |rest|
  {
    var keys := rest + [last];
    assert keys[|rest|] == last && forall i :: 0 <= i < |rest| ==> keys[i] == rest[i];
  }

  /** The first pass keeps the order of the first places, */
  lemma {:induction false} PresentOrder<V>(keys: seq<Key>, m: map<Key, V>, a: Key, b: Key)
    requires a in keys && b in keys && a in m && b in m
    ensures var present := Present(keys, m);
      && a in present && b in present
      && (Place(present, a) < Place(present, b) <==> Place(keys, a) < Place(keys, b))
  {
    PresentMembers(keys, m);
    NotMember(Present(keys, m), a);
    NotMember(Present(keys, m), b);
    var k, rest := keys[|keys| - 1], keys[..|keys| - 1];
    var before := Present(rest, m);
    assert keys == rest + [k];
    PresentMembers(rest, m);
    NotMember(before, a);
    NotMember(before, b);
    PlaceInMore(rest, k, a);
    PlaceInMore(rest, k, b);
    if a in rest && b in rest {
      PresentOrder(rest, m, a, b);
    }
    if k in m {
      PlaceInMore(before, k, a);
      PlaceInMore(before, k, b);
    } else {
      assert before + [] == before;
    }
  }

  /** and so does the second. */
  lemma {:induction false} FirstsOrder(keys: seq<Key>, i: nat, j: nat)
    requires PROTO !in keys && i < j < |Firsts(keys)|
    ensures var first := Firsts(keys);
      first[i] in keys && first[j] in keys && Place(keys, first[i]) < Place(keys, first[j])
  {
    var k, rest := keys[|keys| - 1], keys[..|keys| - 1];
    var before := Firsts(rest);
    assert keys == rest + [k];
    FirstIsKey(rest, i);
    PlaceInMore(rest, k, before[i]);
    if j < |before| {
      FirstsOrder(rest, i, j);
      PlaceInMore(rest, k, before[j]);
    } else {
      PlaceInMore(rest, k, k);
    }
  }

  lemma FirstIsKey(keys: seq<Key>, i: nat)
    ensures i < |Firsts(keys)| ==> Firsts(keys)[i] in keys
  {
    if i < |Firsts(keys)| {
      FirstsMembers(keys);
      NotMember(Firsts(keys), Firsts(keys)[i]);
      NotMember(keys, Firsts(keys)[i]);
    }
  }

  lemma DistinctPlaces(keys: seq<Key>, i: nat)
    requires NoDuplicates(keys) && i < |keys|
    ensures Place(keys, keys[i]) == i
  {
  }

  /** Cleaning keeps the keys of the map in the order of their first places. */
  lemma CleanUpOrders<V>(s: State<V>, i: nat, j: nat)
    requires Consistent(s) && i < j < |CleanUp(s).keys|
    ensures var keys := CleanUp(s).keys;
      keys[i] in s.keys && keys[j] in s.keys && Place(s.keys, keys[i]) < Place(s.keys, keys[j])
  {
    hide NoDuplicates, Members;
    CleanUpCleans(s);
    var kept := CleanUp(s).keys;
    IsMember(kept, i);
    IsMember(kept, j);
    NotMember(s.keys, kept[i]);
    NotMember(s.keys, kept[j]);
    if s.count == |s.keys| {
      DistinctPlaces(kept, i);
      DistinctPlaces(kept, j);
    } else {
      var present := Present(s.keys, s.entries);
      PresentOrder(s.keys, s.entries, kept[i], kept[j]);
      if s.count == |present| {
        DistinctPlaces(kept, i);
        DistinctPlaces(kept, j);
      } else {
        PresentMembers(s.keys, s.entries);
        NotMember(present, PROTO);
        FirstsOrder(present, i, j);
      }
    }
  }

  lemma IsMember(keys: seq<Key>, i: nat)
    requires i < |keys|
    ensures keys[i] in Members(keys)
  {
  }

  /** Cleaning loses no key of the map. */
  lemma CleanUpCovers<V>(s: State<V>)
    requires Covered(s)
    ensures Covered(CleanUp(s))
  {
    hide Members;
    PresentMembers(s.keys, s.entries);
    FirstsMembers(s.keys);
    FirstsMembers(Present(s.keys, s.entries));
  }

  lemma RemoveConsistent<V>(s: State<V>, k: Key)
    requires Consistent(s) && k in s.entries
    ensures Consistent(s.(entries := s.entries - {k}, count := s.count - 1, version := s.version + 1))
  {
    assert (s.entries - {k}).Keys == s.entries.Keys - {k};
    assert |s.entries - {k}| == |(s.entries - {k}).Keys| && |s.entries| == |s.entries.Keys|;
  }

  lemma SetRefines<V>(s: State<V>, k: Key, v: V)
    requires Valid(s) && k != PROTO
    ensures Valid(Apply(s, Set(k, v)))
  {
    assert Members(s.keys + [k]) == Members(s.keys) + {k};
    assert s.entries[k := v].Keys == s.entries.Keys + {k};
    assert |s.entries[k := v]| == |s.entries[k := v].Keys| && |s.entries| == |s.entries.Keys|;
    assert k in s.entries ==> s.entries.Keys + {k} == s.entries.Keys;
  }

  lemma RemoveRefines<V>(s: State<V>, k: Key)
    requires Valid(s)
    ensures Valid(Apply(s, Remove(k))) && Apply(s, Remove(k)).entries == s.entries - {k}
  {
    if k in s.entries {
      RemoveConsistent(s, k);
      CleanUpCleans(s.(entries := s.entries - {k}, count := s.count - 1, version := s.version + 1));
    } else {
      assert s.entries - {k} == s.entries;
    }
  }

  /** An operation does to the entries what it does to a mathematical map, and keeps `count_` and
      the key array in step, if and only if it does not set the key `__proto__`. */
  lemma ApplyRefines<V>(s: State<V>, op: Op<V>)
    requires Valid(s)
    ensures Valid(Apply(s, op)) && Apply(s, op).entries == ApplyMap(s.entries, op) <==> !(op.Set? && op.key == PROTO)
    ensures op.GetKeys? ==> Clean(Apply(s, op))
  {
    match op
    case Set(k, v) =>
      if k == PROTO {
        assert k in ApplyMap(s.entries, op);
      } else {
        SetRefines(s, k, v);
      }
    case Remove(k) => RemoveRefines(s, k);
    case Clear =>
    case GetKeys => CleanUpCleans(s);
  }

  /** The version counts the changes of the key set, but for a `set` of `__proto__` and for `clear`,
      which starts it again. */
  lemma VersionExactly<V>(s: State<V>, op: Op<V>)
    requires Valid(s)
    ensures var s' := Apply(s, op);
      if op.Clear? then s'.version == 0
      else if op.Set? && op.key == PROTO then s'.version == s.version + 1
      else s'.version == s.version + if s'.entries.Keys == s.entries.Keys then 0 else 1
  {
    match op
    case Set(k, v) => assert k in Apply(s, op).entries <==> k != PROTO;
    case Remove(k) =>
      if k in s.entries {
        assert k !in (s.entries - {k}).Keys;
      }
    case Clear =>
    case GetKeys =>
  }

  /** How many calls have set the key `__proto__` since the map was last cleared; n before. */
  function Lost<V>(ops: seq<Op<V>>, n: nat := 0): nat
    decreases |ops|
  {
    if ops == [] then n else Lost(ops[1..], LostBy(ops[0], n))
  }

  function LostBy<V>(op: Op<V>, n: nat): nat {
    match op
    case Set(k, _) => if k == PROTO then n + 1 else n
    case Clear => 0
    case _ => n
  }

  /** What holds of the state and the mathematical map when n such calls have been made. */
  ghost predicate Tracks<V>(s: State<V>, m: map<Key, V>, n: nat) {
    && Covered(s) && s.count == |s.entries| + n
    && (n == 0 ==> Valid(s) && s.entries == m)
  }

  lemma SetTracks<V>(s: State<V>, k: Key, v: V)
    requires Covered(s)
    ensures var s' := Apply(s, Set(k, v));
      Covered(s') && s'.count - |s'.entries| == s.count - |s.entries| + if k == PROTO then 1 else 0
  {
    assert Members(s.keys + [k]) == Members(s.keys) + {k};
    assert s.entries[k := v].Keys == s.entries.Keys + {k};
    assert |s.entries[k := v]| == |s.entries[k := v].Keys| && |s.entries| == |s.entries.Keys|;
    assert k in s.entries ==> s.entries.Keys + {k} == s.entries.Keys;
  }

  lemma RemoveTracks<V>(s: State<V>, k: Key)
    requires Covered(s)
    ensures var s' := Apply(s, Remove(k)); Covered(s') && s'.count - |s'.entries| == s.count - |s.entries|
  {
    if k in s.entries {
      var s1 := s.(entries := s.entries - {k}, count := s.count - 1, version := s.version + 1);
      assert s1.entries.Keys == s.entries.Keys - {k};
      assert |s1.entries| == |s1.entries.Keys| && |s.entries| == |s.entries.Keys|;
      CleanUpCovers(s1);
    }
  }

  lemma ApplyTracks<V>(s: State<V>, m: map<Key, V>, op: Op<V>, n: nat)
    requires Tracks(s, m, n)
    ensures Tracks(Apply(s, op), ApplyMap(m, op), LostBy(op, n))
  {
    hide Covered, Members;
    if n == 0 {
      ApplyRefines(s, op);
    }
    match op
    case Set(k, v) => SetTracks(s, k, v);
    case Remove(k) => RemoveTracks(s, k);
    case Clear => NothingCovered<V>();
    case GetKeys => CleanUpCovers(s);
  }

  lemma NothingCovered<V>()
    ensures Covered(Fresh<V>()) && Valid(Fresh<V>())
  {
  }

  lemma {:induction false} RunTracks<V>(s: State<V>, m: map<Key, V>, ops: seq<Op<V>>, n: nat)
    requires Tracks(s, m, n)
    ensures Tracks(Run(s, ops), RunMap(m, ops), Lost(ops, n))
    decreases |ops|
  {
    hide Tracks, Apply, ApplyMap, LostBy;
    if ops != [] {
      ApplyTracks(s, m, ops[0], n);
      RunTracks(Apply(s, ops[0]), ApplyMap(m, ops[0]), ops[1..], LostBy(ops[0], n));
    }
  }

  /** A run behaves as the same run on a mathematical map, with `count_` its size, if and only if
      the key `__proto__` has not been set since the map was last cleared. Then the key array
      never exceeds twice that size, and the getters see its keys once each. */
  lemma RunRefines<V>(s: State<V>, ops: seq<Op<V>>)
    requires Valid(s)
    ensures var s', m := Run(s, ops), RunMap(s.entries, ops);
      && (s'.entries == m && s'.count == |m| <==> Lost(ops) == 0)
      && (Lost(ops) == 0 ==> Valid(s') && |s'.keys| <= 2 * |m| && Clean(CleanUp(s')))
  {
    hide Run, RunMap, Lost, Covered, Clean;
    RunTracks(s, s.entries, ops, 0);
    if Lost(ops) == 0 {
      CleanUpCleans(Run(s, ops));
    }
  }

  /** Two calls with the key `__proto__`: `count_` is 2 and the getter of keys returns two, but
      there is no entry. */
  lemma ProtoIsLost<V>(v: V, w: V)
    ensures var ops := [Set(PROTO, v), Set(PROTO, w), GetKeys];
      Run(Fresh<V>(), ops) == State(map[], [PROTO, PROTO], 2, 2) && RunMap(map[], ops) == map[PROTO := w]
  {
    var ops := [Set(PROTO, v), Set(PROTO, w), GetKeys];
    assert ops[1..] == [Set(PROTO, w), GetKeys] && ops[1..][1..] == [GetKeys] && ops[1..][1..][1..] == [];
    var s1: State<V>, s2: State<V> := State(map[], [PROTO], 1, 1), State(map[], [PROTO, PROTO], 2, 2);
    assert Apply(Fresh<V>(), ops[0]) == s1 && Apply(s1, ops[1]) == s2 && Apply(s2, ops[2]) == s2;
    assert Run(Fresh<V>(), ops) == Run(s1, ops[1..]) == Run(s2, [GetKeys]) == Run(s2, []);
    assert RunMap(map[], ops) == RunMap(map[PROTO := v], ops[1..]) == RunMap(map[PROTO := w], [GetKeys]);
    assert map[PROTO := v][PROTO := w] == map[PROTO := w];
  }

  // ----- iterators

  /** What happens to a map while an iterator is open on it. */
  datatype Event<V> = Do(op: Op<V>) | Next

  datatype Outcome = Open | Stopped | Threw

  /** The keys handed out by an iterator made at `version` that has handed out `pos` keys. The iterator
      reads the live key array of the map. */
  function Iterate<V>(s: State<V>, version: int, pos: nat, events: seq<Event<V>>)
    : (State<V>, seq<Key>, Outcome)
    decreases |events|
  {
    if events == [] then (s, [], Open)
    else match events[0]
      case Do(op) => Iterate(Apply(s, op), version, pos, events[1..])
      case Next =>
        if version != s.version then (s, [], Threw)
        else if pos >= |s.keys| then (s, [], Stopped)
        else
          var (s', out, end) := Iterate(s, version, pos + 1, events[1..]);
          (s', [s.keys[pos]] + out, end)
  }

  /** What an iterator is expected to do: it hands out keys of the map without repetition, and
      when it stops it has handed out every key, and the map still has exactly these keys. */
  ghost predicate Promise<V>(s: State<V>, events: seq<Event<V>>) {
    var s0 := CleanUp(s);
    var (s', out, end) := Iterate(s0, s0.version, 0, events);
    && NoDuplicates(out) && Members(out) <= s.entries.Keys
    && (end == Stopped ==> Members(out) == s.entries.Keys == s'.entries.Keys)
  }

  /** The version differs when the iterator is asked next. */
  predicate NextThrows<V>(s: State<V>, version: int, events: seq<Event<V>>)
    decreases |events|
  {
    events != [] ==>
      match events[0]
      case Do(op) => NextThrows(Apply(s, op), version, events[1..])
      case Next => s.version != version
  }

  /** Whenever the map is cleared, the version tells it at the next call. */
  predicate ClearsCaught<V>(s: State<V>, version: int, events: seq<Event<V>>)
    decreases |events|
  {
    events != [] ==>
      match events[0]
      case Do(op) =>
        if op.Clear? then NextThrows(Apply(s, op), version, events[1..])
        else ClearsCaught(Apply(s, op), version, events[1..])
      case Next => ClearsCaught(s, version, events[1..])
  }

  /** While the version stands still, so do the keys of the map and the key array. */
  lemma VersionGuards<V>(s: State<V>, op: Op<V>)
    requires !op.Clear?
    ensures Apply(s, op).version >= s.version
    ensures Clean(s) && Apply(s, op).version == s.version ==>
      Apply(s, op).keys == s.keys && Apply(s, op).entries.Keys == s.entries.Keys && Clean(Apply(s, op))
  {
  }

  lemma {:induction false} IteratorPrefix<V>(
    s: State<V>, version: int, pos: nat, events: seq<Event<V>>, all: seq<Key>)
    requires ClearsCaught(s, version, events) && s.version >= version && pos <= |all|
    requires s.version == version ==> Clean(s) && s.keys == all
    ensures var (s', out, end) := Iterate(s, version, pos, events);
      && out <= all[pos..]
      && (end == Stopped ==> out == all[pos..] && s'.entries.Keys == Members(all))
    decreases |events|
  {
    hide Clean, Valid, Apply, Members, NoDuplicates, NextThrows;
    if events != [] {
      match events[0]
      case Do(op) =>
        if op.Clear? {
          NothingMore(Apply(s, op), version, pos, events[1..]);
        } else {
          VersionGuards(s, op);
          IteratorPrefix(Apply(s, op), version, pos, events[1..], all);
        }
      case Next =>
        if version == s.version {
          CleanKeys(s);
          if pos < |s.keys| {
            IteratorPrefix(s, version, pos + 1, events[1..], all);
            assert all[pos..] == [all[pos]] + all[pos + 1..];
          }
        }
    }
  }

  lemma {:induction false} NothingMore<V>(s: State<V>, version: int, pos: nat, events: seq<Event<V>>)
    requires NextThrows(s, version, events)
    ensures Iterate(s, version, pos, events).1 == [] && Iterate(s, version, pos, events).2 != Stopped
    decreases |events|
  {
    hide Apply;
    if events != [] && events[0].Do? {
      NothingMore(Apply(s, events[0].op), version, pos, events[1..]);
    }
  }

  lemma CleanKeys<V>(s: State<V>)
    requires Clean(s)
    ensures Members(s.keys) == s.entries.Keys
  {
  }

  /** The promise is kept in every run in which the version shows each `clear` at the next call. */
  lemma IteratorComplete<V>(s: State<V>, events: seq<Event<V>>)
    requires Valid(s) && ClearsCaught(CleanUp(s), s.version, events)
    ensures Promise(s, events)
  {
    var s0 := CleanUp(s);
    CleanUpCleans(s);
    IteratorPrefix(s0, s0.version, 0, events, s0.keys);
    assert s0.keys[0..] == s0.keys;
  }

  predicate NoClear<V>(events: seq<Event<V>>) {
    forall i :: 0 <= i < |events| ==> events[i].Do? ==> !events[i].op.Clear?
  }

  lemma {:induction false} NoClearIsCaught<V>(s: State<V>, version: int, events: seq<Event<V>>)
    requires NoClear(events)
    ensures ClearsCaught(s, version, events)
    decreases |events|
  {
    hide Apply;
    if events != [] {
      assert NoClear(events[1..]);
      match events[0]
      case Do(op) => NoClearIsCaught(Apply(s, op), version, events[1..]);
      case Next => NoClearIsCaught(s, version, events[1..]);
    }
  }

  /** In a run without `clear` nothing else is needed. */
  lemma IteratorWithoutClear<V>(s: State<V>, events: seq<Event<V>>)
    requires Valid(s) && NoClear(events)
    ensures Promise(s, events)
  {
    hide Promise, ClearsCaught;
    NoClearIsCaught(CleanUp(s), s.version, events);
    IteratorComplete(s, events);
  }

  // ----- which maps are safe to iterate over, whatever happens

  /** Version 0 means that nothing has been put into the map since it was made or cleared. */
  ghost predicate Reached<V>(s: State<V>) {
    Covered(s) && s.version >= 0 && (s.version == 0 ==> s.entries == map[] && s.keys == [] && s.count == 0)
  }

  lemma ApplyReaches<V>(s: State<V>, op: Op<V>)
    requires Reached(s)
    ensures Reached(Apply(s, op))
  {
    match op
    case Set(k, v) => SetTracks(s, k, v);
    case Remove(k) => RemoveTracks(s, k);
    case Clear =>
    case GetKeys => CleanUpCovers(s);
  }

  lemma {:induction false} RunReaches<V>(s: State<V>, ops: seq<Op<V>>)
    requires Reached(s)
    ensures Reached(Run(s, ops))
    decreases |ops|
  {
    hide Reached, Apply;
    if ops != [] {
      ApplyReaches(s, ops[0]);
      RunReaches(Apply(s, ops[0]), ops[1..]);
    }
  }

  lemma FreshIsReached<V>()
    ensures Reached(Fresh<V>())
  {
  }

  /** An iterator made at version 0 hands out nothing. */
  lemma {:induction false} IterateAtZero<V>(s: State<V>, pos: nat, events: seq<Event<V>>)
    requires Reached(s)
    ensures var (s', out, end) := Iterate(s, 0, pos, events); out == [] && (end == Stopped ==> s'.entries == map[])
    decreases |events|
  {
    hide Apply, Valid;
    if events != [] && events[0].Do? {
      ApplyReaches(s, events[0].op);
      IterateAtZero(Apply(s, events[0].op), pos, events[1..]);
    }
  }

  lemma ZeroIsSafe<V>(s: State<V>, events: seq<Event<V>>)
    requires Reached(s) && s.version == 0
    ensures Promise(s, events)
  {
    ApplyReaches(s, GetKeys);
    IterateAtZero(CleanUp(s), 0, events);
  }

  // an iterator made at a later version can be deceived

  function Letters(n: nat): (k: Key)
    ensures |k| == n && (n > 0 ==> k[0] == 'x')
  {
    if n == 0 then "" else "x" + Letters(n - 1)
  }

  function Longest(keys: seq<Key>): (n: nat)
    ensures forall k :: k in keys ==> |k| <= n
  {
    if keys == [] then 0
    else
      var n := Longest(keys[1..]);
      if |keys[0]| > n then |keys[0]| else n
  }

  /** Sets n keys, of the lengths after `longest`. */
  function Sets<V>(n: nat, longest: nat, x: V): seq<Op<V>> {
    if n == 0 then [] else Sets(n - 1, longest, x) + [Set(Letters(longest + n), x)]
  }

  lemma {:induction false} RunLast<V>(s: State<V>, ops: seq<Op<V>>, op: Op<V>)
    ensures Run(s, ops + [op]) == Apply(Run(s, ops), op)
    decreases |ops|
  {
    hide Apply;
    if ops == [] {
      assert [] + [op] == [op] && [op][1..] == [];
    } else {
      assert (ops + [op])[1..] == ops[1..] + [op];
      RunLast(Apply(s, ops[0]), ops[1..], op);
    }
  }

  lemma {:induction false} SetsRun<V>(n: nat, longest: nat, x: V)
    ensures var s := Run(Fresh<V>(), Sets(n, longest, x));
      && s.version == n == |s.keys| && (n > 0 ==> s.keys[0] == Letters(longest + 1))
      && forall k :: k in s.entries ==> longest < |k| <= longest + n
  {
    if n > 0 {
      SetsRun(n - 1, longest, x);
      RunLast(Fresh<V>(), Sets(n - 1, longest, x), Set(Letters(longest + n), x));
      assert PROTO[0] == '_';
    }
  }

  function DoAll<V>(ops: seq<Op<V>>): seq<Event<V>> {
    if ops == [] then [] else [Do(ops[0])] + DoAll(ops[1..])
  }

  lemma {:induction false} IterateAll<V>(s: State<V>, version: int, pos: nat, ops: seq<Op<V>>, rest: seq<Event<V>>)
    ensures Iterate(s, version, pos, DoAll(ops) + rest) == Iterate(Run(s, ops), version, pos, rest)
    decreases |ops|
  {
    hide Apply, Iterate;
    if ops == [] {
      assert [] + rest == rest;
    } else {
      var more := DoAll(ops[1..]);
      IterateAll(Apply(s, ops[0]), version, pos, ops[1..], rest);
      assert [Do(ops[0])] + more + rest == [Do(ops[0])] + (more + rest);
      IterateDo(s, version, pos, ops[0], more + rest);
    }
  }

  lemma IterateDo<V>(s: State<V>, version: int, pos: nat, op: Op<V>, rest: seq<Event<V>>)
    ensures Iterate(s, version, pos, [Do(op)] + rest) == Iterate(Apply(s, op), version, pos, rest)
  {
    hide Apply;
    assert ([Do(op)] + rest)[1..] == rest;
  }

  /** The map is cleared, and then gets as many new keys as its version says. */
  lemma LaterIsDeceived<V>(s: State<V>, x: V) returns (events: seq<Event<V>>)
    requires Reached(s) && s.version > 0
    ensures !Promise(s, events)
  {
    var longest := Longest(s.keys);
    var sets := Sets(s.version, longest, x);
    events := [Do(Clear)] + (DoAll(sets) + [Next]);
    var s0, s1 := CleanUp(s), Run(Fresh<V>(), sets);
    SetsRun(s.version, longest, x);
    assert events[1..] == DoAll(sets) + [Next];
    IterateAll(Fresh<V>(), s.version, 0, sets, [Next]);
    var out := Iterate(s0, s.version, 0, events).1;
    assert out == [s1.keys[0]] + Iterate(s1, s.version, 1, [Next][1..]).1;
    NewKey(s, out[0]);
    assert out[0] in Members(out);
  }

  lemma NewKey<V>(s: State<V>, k: Key)
    requires Covered(s) && |k| > Longest(s.keys)
    ensures k !in s.entries
  {
    assert k !in s.keys;
  }

  /** `clear` sets the version back to zero. A map is safe to iterate over, whatever is done to
      it meanwhile, exactly while its version is zero; and then it is empty. */
  lemma PromiseExactly<V(!new)>(ops: seq<Op<V>>, x: V)
    ensures var s := Run(Fresh<V>(), ops);
      (forall events: seq<Event<V>> :: Promise(s, events)) <==> s.version == 0
  {
    hide Promise, Reached;
    FreshIsReached<V>();
    RunReaches(Fresh<V>(), ops);
    var s := Run(Fresh<V>(), ops);
    VersionCounts(s);
    if s.version == 0 {
      forall events: seq<Event<V>> ensures Promise(s, events) {
        ZeroIsSafe(s, events);
      }
    } else {
      var events := LaterIsDeceived(s, x);
      assert !Promise(s, events);
    }
  }

  lemma VersionCounts<V>(s: State<V>)
    requires Reached(s)
    ensures s.version >= 0
  {
  }

  /** The shortest case: the iterator hands out a key the map did not have. */
  lemma ClearDeceivesIterator()
    ensures var s := Run(Fresh<int>(), [Set("a", 1)]);
      var (s', out, end) := Iterate(s, s.version, 0, [Do(Clear), Do(Set("b", 2)), Next]);
      Valid(s) && s.entries.Keys == {"a"} && out == ["b"] && end == Open
  {
    var s := Apply(Fresh<int>(), Set("a", 1));
    assert Run(Fresh<int>(), [Set("a", 1)]) == Run(s, []);
    var s2 := Apply(State(map[], [], 0, 0), Set("b", 2));
    assert [Do(Clear), Do(Set("b", 2)), Next][1..] == [Do(Set("b", 2)), Next];
    assert [Do(Set("b", 2)), Next][1..] == [Next];
    assert Iterate(s, 1, 0, [Do(Clear), Do(Set("b", 2)), Next]) == Iterate(s2, 1, 0, [Next]);
    SetRefines(Fresh<int>(), "a", 1);
  }

  // ----- the map object

  lemma PresentStep<V>(keys: seq<Key>, m: map<Key, V>, a: nat)
    requires a < |keys|
    ensures Present(keys[..a + 1], m) == Present(keys[..a], m) + if keys[a] in m then [keys[a]] else []
  {
    assert keys[..a + 1][..a] == keys[..a];
  }

  lemma FirstsStep(keys: seq<Key>, a: nat)
    requires a < |keys|
    ensures Firsts(keys[..a + 1]) ==
      Firsts(keys[..a]) + if keys[a] in keys[..a] && keys[a] != PROTO then [] else [keys[a]]
  {
    assert keys[..a + 1][..a] == keys[..a];
  }

  lemma NoFirsts()
    ensures Firsts([]) == []
  {
  }

  datatype Result<+T> = Yielded(value: T) | StopIteration | MapChanged

  class Map<V> {
    var map_: map<Key, V>
    var keys_: seq<Key>
    var count_: int
    var version_: int

    ghost function View(): State<V>
      reads this
    {
      State(map_, keys_, count_, version_)
    }

    constructor ()
      ensures View() == Fresh<V>()
    {
      map_, keys_, count_, version_ := map[], [], 0, 0;
    }

    /** Moves the keys that are still in the map to the front, in place. */
    method DropStale()
      modifies this`keys_
      ensures keys_ == Present(old(keys_), map_)
    {
      var keys := keys_;
      var a, b := 0, 0;
      while a < |keys|
        invariant b <= a <= |keys| == |keys_| && keys_ == old(keys_)
        invariant keys[..b] == Present(keys_[..a], map_)
        invariant forall j :: a <= j < |keys| ==> keys[j] == keys_[j]
      {
        PresentStep(keys_, map_, a);
        var c := keys[a];
        if c in map_ {
          keys := keys[b := c];
          b := b + 1;
        }
        a := a + 1;
      }
      assert keys_[..a] == keys_;
      keys_ := keys[..b];
    }

    /** Moves the first occurrence of every key to the front, in place. */
    method DropRepeats()
      modifies this`keys_
      ensures keys_ == Firsts(old(keys_))
    {
      hide Firsts, Members;
      NoMembers();
      NoFirsts();
      var keys := keys_;
      var seen: set<Key> := {};
      var a, b := 0, 0;
      while a < |keys|
        invariant b <= a <= |keys| == |keys_| && keys_ == old(keys_)
        invariant seen == Members(keys_[..a]) - {PROTO}
        invariant keys[..b] == Firsts(keys_[..a])
        invariant forall j :: a <= j < |keys| ==> keys[j] == keys_[j]
      {
        FirstsStep(keys_, a);
        var c := keys[a];
        assert keys_[..a + 1] == keys_[..a] + [c];
        MembersLast(keys_[..a], c);
        if c !in seen {
          keys := keys[b := c];
          b := b + 1;
          if c != PROTO {
            seen := seen + {c};
          }
        }
        a := a + 1;
      }
      assert keys_[..a] == keys_;
      keys_ := keys[..b];
    }

    method CleanupKeysArray()
      modifies this`keys_
      ensures View() == CleanUp(old(View()))
    {
      if count_ != |keys_| {
        DropStale();
      }
      if count_ != |keys_| {
        DropRepeats();
      }
    }

    method Set(k: Key, v: V)
      modifies this
      ensures View() == Apply(old(View()), Op.Set(k, v))
    {
      if k !in map_ {
        count_ := count_ + 1;
        keys_ := keys_ + [k];
        version_ := version_ + 1;
      }
      if k != PROTO {
        map_ := map_[k := v];
      }
    }

    method Remove(k: Key) returns (b: bool)
      modifies this
      ensures View() == Apply(old(View()), Op.Remove(k)) && b == (k in old(map_))
    {
      if k !in map_ {
        return false;
      }
      map_ := map_ - {k};
      count_ := count_ - 1;
      version_ := version_ + 1;
      if |keys_| > 2 * count_ {
        CleanupKeysArray();
      }
      b := true;
    }

    method Clear()
      modifies this
      ensures View() == Apply(old(View()), Op.Clear)
    {
      map_, keys_, count_, version_ := map[], [], 0, 0;
    }

    method GetKeys() returns (keys: seq<Key>)
      modifies this`keys_
      ensures View() == Apply(old(View()), Op.GetKeys) && keys == keys_
      ensures Valid(old(View())) ==> NoDuplicates(keys) && Members(keys) == map_.Keys && |keys| == |map_|
    {
      if Valid(View()) {
        CleanUpCleans(View());
      }
      CleanupKeysArray();
      keys := keys_;
    }

    /** The values in the order of the keys; None where a key has no entry. */
    method GetValues() returns (values: seq<Option<V>>)
      modifies this`keys_
      ensures View() == Apply(old(View()), Op.GetKeys) && |values| == |keys_|
      ensures forall i :: 0 <= i < |keys_| ==>
        values[i] == if keys_[i] in map_ then Some(map_[keys_[i]]) else None
      ensures Valid(old(View())) ==> |values| == |map_| && forall i :: 0 <= i < |values| ==> values[i].Some?
    {
      hide Cleaned;
      var keys := GetKeys();
      assert forall i :: 0 <= i < |keys| ==> keys[i] in Members(keys);
      values := [];
      var b := 0;
      while b < |keys|
        invariant b <= |keys| && |values| == b
        invariant forall i :: 0 <= i < b ==> values[i] == if keys[i] in map_ then Some(map_[keys[i]]) else None
      {
        values := values + [if keys[b] in map_ then Some(map_[keys[b]]) else None];
        b := b + 1;
      }
    }

    /** Looks at stale keys too, and is right all the same. */
    method ContainsValue(eq: V -> bool) returns (found: bool)
      requires Covered(View())
      ensures found <==> exists k :: k in map_ && eq(map_[k])
    {
      var b := 0;
      while b < |keys_|
        invariant b <= |keys_|
        invariant forall i :: 0 <= i < b ==> keys_[i] in map_ ==> !eq(map_[keys_[i]])
      {
        var c := keys_[b];
        if c in map_ && eq(map_[c]) {
          return true;
        }
        b := b + 1;
      }
      forall k | k in map_ ensures !eq(map_[k]) {
        assert k in Members(keys_);
      }
      found := false;
    }
  }

  class KeyIterator<V> {
    const map_: Map<V>
    const version: int
    var b: nat

    constructor (m: Map<V>)
      modifies m`keys_
      ensures map_ == m && b == 0 && m.View() == CleanUp(old(m.View())) && version == m.version_
    {
      m.CleanupKeysArray();
      map_, version, b := m, m.version_, 0;
    }

    /** One step of `Iterate`. */
    method Next() returns (r: Result<Key>)
      modifies this
      ensures var (s', out, end) := Iterate(map_.View(), version, old(b), [Event<V>.Next]);
        match r
        case MapChanged => end == Threw && b == old(b)
        case StopIteration => end == Stopped && b == old(b)
        case Yielded(k) => end == Open && out == [k] && b == old(b) + 1
    {
      if version != map_.version_ {
        return MapChanged;
      }
      if b >= |map_.keys_| {
        return StopIteration;
      }
      var g := map_.keys_[b];
      b := b + 1;
      r := Yielded(g);
    }
  }
}
