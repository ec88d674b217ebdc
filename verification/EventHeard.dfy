/** The calls of a dispatch in their order, and how far it is heard when some of them stop the
    event or throw. */
module EventHeard {
  import opened EventModel
  import opened EventDispatch
  import opened EventWalk

  /** The calls of the plan touch no registration; they may stop the event, prevent its default,
      return false or throw. */
  predicate Passive(plan: Plan) {
    plan.Next? ==> plan.call.actions == Done && Passive(plan.later)
  }

  lemma {:induction false} PassiveSpares(plan: Plan, t: EventType)
    requires Passive(plan)
    ensures PlanSpares(plan, t)
  {
    if plan.Next? {
      PassiveSpares(plan.later, t);
    }
  }

  // ----- the first calls of a plan

  function FirstCalls(plan: Plan, n: nat): (cs: seq<Call>)
    ensures |cs| == n
  {
    if n == 0 then [] else [NextCall(plan)] + FirstCalls(Later(plan), n - 1)
  }

  function After(plan: Plan, n: nat): Plan {
    if n == 0 then plan else After(Later(plan), n - 1)
  }

  lemma {:induction false} CallsSplit(plan: Plan, m: nat, n: nat)
    ensures FirstCalls(plan, m + n) == FirstCalls(plan, m) + FirstCalls(After(plan, m), n)
    ensures After(plan, m + n) == After(After(plan, m), n)
  {
    if m == 0 {
      assert FirstCalls(plan, n) == [] + FirstCalls(plan, n);
    } else {
      hide NextCall, Later;
      CallsSplit(Later(plan), m - 1, n);
      assert m + n - 1 == m - 1 + n;
      var first := [NextCall(plan)];
      assert first + (FirstCalls(Later(plan), m - 1) + FirstCalls(After(plan, m), n))
        == first + FirstCalls(Later(plan), m - 1) + FirstCalls(After(plan, m), n);
    }
  }

  lemma OneOfCalls(plan: Plan)
    ensures FirstCalls(plan, 1) == [NextCall(plan)] && After(plan, 1) == Later(plan)
  {
    assert FirstCalls(plan, 1) == [NextCall(plan)] + FirstCalls(Later(plan), 0);
  }

  // ----- how calls end

  /** Only the last call, and only when an exception ended the stretch, has thrown. */
  ghost predicate Throws(cs: seq<Call>, thrown: bool) {
    && (thrown ==> cs != [] && cs[|cs| - 1].throws)
    && (forall i :: 0 <= i < |cs| - (if thrown then 1 else 0) ==> !cs[i].throws)
  }

  ghost predicate AnyStops(cs: seq<Call>) {
    exists c :: c in cs && c.stops
  }

  ghost predicate AnyPrevents(cs: seq<Call>) {
    exists c :: c in cs && c.prevents
  }

  ghost predicate AnyFalse(cs: seq<Call>) {
    exists c :: c in cs && c.returnsFalse
  }

  lemma NoCalls(plan: Plan)
    ensures FirstCalls(plan, 0) == [] && After(plan, 0) == plan
    ensures !AnyFalse(FirstCalls(plan, 0)) && !AnyStops(FirstCalls(plan, 0)) && !AnyPrevents(FirstCalls(plan, 0))
  {
  }

  lemma RestOfCalls(plan: Plan, m: nat, n: nat, thrown: bool)
    ensures var cs, ds := FirstCalls(plan, m), FirstCalls(After(plan, m), n);
      && (Throws(cs, false) && Throws(ds, thrown) ==> Throws(FirstCalls(plan, m + n), thrown))
      && (AnyStops(FirstCalls(plan, m + n)) <==> AnyStops(cs) || AnyStops(ds))
      && (AnyPrevents(FirstCalls(plan, m + n)) <==> AnyPrevents(cs) || AnyPrevents(ds))
      && (AnyFalse(FirstCalls(plan, m + n)) <==> AnyFalse(cs) || AnyFalse(ds))
  {
    CallsSplit(plan, m, n);
  }

  // ----- how far the listeners are heard

  predicate SameArray(r: Registry, j: Key, k: Key) {
    j in r.records && k in r.records && r.records[j].slot == r.records[k].slot
  }

  /** Of all that could be heard the keys are what is heard with these calls: nothing after one
      that throws, and nothing outside the array of one that stops the event; all up to there. */
  ghost predicate UpTo(r: Registry, heard: seq<Key>, keys: seq<Key>, cs: seq<Call>, thrown: bool) {
    && keys <= heard && |cs| == |keys| && Throws(cs, thrown)
    && (forall i, j :: 0 <= i < j < |keys| && cs[i].stops ==> SameArray(r, keys[i], keys[j]))
    && (|keys| < |heard| ==>
          thrown || exists i :: 0 <= i < |keys| && cs[i].stops && !SameArray(r, keys[i], heard[|keys|]))
  }

  /** A plan leaves no choice in this. */
  lemma UpToIsUnique(r: Registry, heard: seq<Key>, plan: Plan, m: nat, n: nat, thrown: bool, thrown': bool)
    requires m <= |heard| && UpTo(r, heard, heard[..m], FirstCalls(plan, m), thrown)
    requires n <= |heard| && UpTo(r, heard, heard[..n], FirstCalls(plan, n), thrown')
    ensures m == n && thrown == thrown'
  {
    if m < n {
      NotShorter(r, heard, plan, m, n, thrown, thrown');
    } else if n < m {
      NotShorter(r, heard, plan, n, m, thrown', thrown);
    }
  }

  lemma NotShorter(r: Registry, heard: seq<Key>, plan: Plan, m: nat, n: nat, thrown: bool, thrown': bool)
    requires m < n <= |heard| && UpTo(r, heard, heard[..m], FirstCalls(plan, m), thrown)
    ensures !UpTo(r, heard, heard[..n], FirstCalls(plan, n), thrown')
  {
    hide FirstCalls, SameArray;
    CallsSplit(plan, m, n - m);
    var cs, ds := FirstCalls(plan, m), FirstCalls(plan, n);
    assert forall i :: 0 <= i < m ==> ds[i] == cs[i];
    if thrown {
      assert ds[m - 1].throws;
    } else {
      var i :| 0 <= i < m && cs[i].stops && !SameArray(r, heard[..m][i], heard[m]);
      assert ds[i].stops && !SameArray(r, heard[..n][i], heard[..n][m]);
    }
  }

  ghost predicate Apart(r: Registry, b: seq<Key>, more: seq<Key>) {
    forall j, k :: j in b && k in more ==> !SameArray(r, j, k)
  }

  lemma EndsHere(r: Registry, b: seq<Key>, more: seq<Key>, keys: seq<Key>, cs: seq<Call>, thrown: bool)
    requires UpTo(r, b, keys, cs, thrown) && Apart(r, b, more) && (thrown || AnyStops(cs))
    ensures UpTo(r, b + more, keys, cs, thrown)
  {
    if keys == b && !thrown && more != [] {
      var c :| c in cs && c.stops;
      var i :| 0 <= i < |cs| && cs[i] == c;
      assert !SameArray(r, keys[i], (b + more)[|keys|]);
    }
  }

  lemma GoesOn(
    r: Registry, b: seq<Key>, more: seq<Key>, keys: seq<Key>, cs: seq<Call>, keys': seq<Key>, cs': seq<Call>,
    thrown: bool)
    requires UpTo(r, b, keys, cs, false) && !AnyStops(cs) && UpTo(r, more, keys', cs', thrown)
    ensures keys == b && UpTo(r, b + more, keys + keys', cs + cs', thrown)
  {
    var all, ds := keys + keys', cs + cs';
    assert forall i :: 0 <= i < |cs| ==> ds[i] in cs;
    assert forall i :: |keys| <= i < |all| ==> ds[i] == cs'[i - |keys|] && all[i] == keys'[i - |keys|];
    if |all| < |b + more| && !thrown {
      var i :| 0 <= i < |keys'| && cs'[i].stops && !SameArray(r, keys'[i], more[|keys'|]);
      assert ds[|keys| + i].stops && !SameArray(r, all[|keys| + i], (b + more)[|all|]);
    }
  }

  lemma OneArray(r: Registry, s: Slot, b: seq<Key>, keys: seq<Key>, cs: seq<Call>, thrown: bool)
    requires keys <= b && |cs| == |keys| && Throws(cs, thrown) && (|keys| < |b| ==> thrown)
    requires forall k :: k in b ==> k in r.records && r.records[k].slot == s
    ensures UpTo(r, b, keys, cs, thrown)
  {
  }

  // ----- quiet calls

  lemma {:induction false} QuietCalls(n: nat)
    ensures FirstCalls(Quiet, n) == seq(n, i => QUIET_CALL)
  {
    if n > 0 {
      QuietCalls(n - 1);
    }
  }

  /** n calls that only return and then one like this. */
  function QuietThen(n: nat, call: Call): Plan {
    if n == 0 then Next(call, Quiet) else Next(QUIET_CALL, QuietThen(n - 1, call))
  }

  lemma {:induction false} CallsOfQuietThen(n: nat, call: Call, m: nat)
    ensures FirstCalls(QuietThen(n, call), m) == seq(m, i => if i == n then call else QUIET_CALL)
    ensures call.actions == Done ==> Passive(QuietThen(n, call))
  {
    if n == 0 {
      if m > 0 {
        QuietCalls(m - 1);
      }
    } else {
      if m > 0 {
        CallsOfQuietThen(n - 1, call, m - 1);
      } else {
        CallsOfQuietThen(n - 1, call, 0);
      }
    }
  }
}
