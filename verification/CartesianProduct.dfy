/** `goog.iter.product`: an odometer over several lists. */
module CartesianProduct {
  import opened Wrappers

  // ----- what the iterator is for

  function Total<T>(lists: seq<seq<T>>): nat {
    if lists == [] then 1 else |lists[0]| * Total(lists[1..])
  }

  /** The product of the lists, the last position varying fastest. */
  function Tuples<T>(lists: seq<seq<T>>): seq<seq<T>> {
    if lists == [] then [[]] else Prepended(lists[0], Tuples(lists[1..]))
  }

  function Prepended<T>(xs: seq<T>, tails: seq<seq<T>>): seq<seq<T>> {
    if xs == [] then [] else seq(|tails|, i requires 0 <= i < |tails| => [xs[0]] + tails[i]) + Prepended(xs[1..], tails)
  }

  /** The tuples the iterator returns: none at all without lists. */
  function Results<T>(lists: seq<seq<T>>): seq<seq<T>> {
    if lists == [] then [] else Tuples(lists)
  }

  // ----- positions in the lists

  /** d holds one position for each list. */
  predicate InRange<T>(lists: seq<seq<T>>, d: seq<nat>) {
    |d| == |lists| && forall i :: 0 <= i < |d| ==> d[i] < |lists[i]|
  }

  function Picked<T>(lists: seq<seq<T>>, d: seq<nat>): seq<T>
    requires InRange(lists, d)
  {
    seq(|d|, i requires 0 <= i < |d| => lists[i][d[i]])
  }

  /** The number that positions stand for, in mixed radix. */
  function Value<T>(lists: seq<seq<T>>, d: seq<nat>): nat
    requires InRange(lists, d)
  {
    if d == [] then 0 else d[0] * Total(lists[1..]) + Value(lists[1..], d[1..])
  }

  function Digits<T>(lists: seq<seq<T>>, n: nat): (d: seq<nat>)
    requires n < Total(lists)
    ensures InRange(lists, d)
  {
    if lists == [] then []
    else
      var m := Total(lists[1..]);
      Quotient(n, |lists[0]|, m);
      [n / m] + Digits(lists[1..], n % m)
  }

  lemma Scale(a: nat, b: nat, m: nat)
    ensures a <= b ==> a * m <= b * m
    ensures a < b ==> a * m + m <= b * m
  {
    if a < b {
      assert a * m + m == (a + 1) * m <= b * m;
    }
  }

  lemma Quotient(n: nat, a: nat, m: nat)
    requires n < a * m
    ensures m > 0 && n / m < a
  {
    if m > 0 {
      Scale(a, n / m, m);
    }
  }

  lemma Product(a: nat, b: nat, m: nat, r: nat)
    requires a < b && r < m
    ensures a * m + r < b * m && (a * m + r) / m == a && (a * m + r) % m == r
  {
    Scale(a, b, m);
    var n := a * m + r;
    var q := n / m;
    assert n == q * m + n % m;
    Scale(a, q, m);
    Scale(q, a, m);
  }

  lemma Recompose(n: nat, m: nat)
    requires m > 0
    ensures n == n / m * m + n % m
  {
  }

  /** Positions and numbers below the total are in bijection. */
  lemma {:induction false} ValueIsNumber<T>(lists: seq<seq<T>>, d: seq<nat>)
    requires InRange(lists, d)
    ensures Value(lists, d) < Total(lists) && Digits(lists, Value(lists, d)) == d
  {
    if d != [] {
      ValueIsNumber(lists[1..], d[1..]);
      Product(d[0], |lists[0]|, Total(lists[1..]), Value(lists[1..], d[1..]));
      assert d == [d[0]] + d[1..];
    }
  }

  lemma {:induction false} DigitsAreNumber<T>(lists: seq<seq<T>>, n: nat)
    requires n < Total(lists)
    ensures Value(lists, Digits(lists, n)) == n
  {
    if lists != [] {
      var m := Total(lists[1..]);
      Quotient(n, |lists[0]|, m);
      hide Total;
      DigitsAreNumber(lists[1..], n % m);
      var d := Digits(lists, n);
      assert d[1..] == Digits(lists[1..], n % m);
      Recompose(n, m);
    }
  }

  /** The order of the numbers is the lexicographic order of the positions. */
  predicate LexLess(d: seq<nat>, e: seq<nat>)
    requires |d| == |e|
  {
    d != [] && (d[0] < e[0] || (d[0] == e[0] && LexLess(d[1..], e[1..])))
  }

  lemma {:induction false} ValueOrders<T>(lists: seq<seq<T>>, d: seq<nat>, e: seq<nat>)
    requires InRange(lists, d) && InRange(lists, e)
    ensures Value(lists, d) < Value(lists, e) <==> LexLess(d, e)
  {
    if d != [] {
      var m := Total(lists[1..]);
      ValueIsNumber(lists[1..], d[1..]);
      ValueIsNumber(lists[1..], e[1..]);
      ValueOrders(lists[1..], d[1..], e[1..]);
      Scale(d[0], e[0], m);
      Scale(e[0], d[0], m);
    }
  }

  lemma {:induction false} PrependedAt<T>(xs: seq<T>, tails: seq<seq<T>>, i: nat, j: nat)
    requires i < |xs| && j < |tails|
    ensures |Prepended(xs, tails)| == |xs| * |tails|
    ensures i * |tails| + j < |Prepended(xs, tails)| && Prepended(xs, tails)[i * |tails| + j] == [xs[i]] + tails[j]
  {
    Product(i, |xs|, |tails|, j);
    PrependedLength(xs, tails);
    if i > 0 {
      PrependedAt(xs[1..], tails, i - 1, j);
      assert (i - 1) * |tails| + |tails| == i * |tails|;
    }
  }

  lemma {:induction false} PrependedLength<T>(xs: seq<T>, tails: seq<seq<T>>)
    ensures |Prepended(xs, tails)| == |xs| * |tails|
  {
    if xs != [] {
      PrependedLength(xs[1..], tails);
      assert (|xs| - 1) * |tails| + |tails| == |xs| * |tails|;
    }
  }

  /** The tuples of the product, each at the number of its positions. */
  lemma {:induction false} TuplesByNumber<T>(lists: seq<seq<T>>, d: seq<nat>)
    requires InRange(lists, d)
    ensures |Tuples(lists)| == Total(lists)
    ensures Value(lists, d) < Total(lists) && Tuples(lists)[Value(lists, d)] == Picked(lists, d)
  {
    ValueIsNumber(lists, d);
    if d != [] {
      TuplesByNumber(lists[1..], d[1..]);
      PrependedAt(lists[0], Tuples(lists[1..]), d[0], Value(lists[1..], d[1..]));
      assert Picked(lists, d) == [lists[0][d[0]]] + Picked(lists[1..], d[1..]);
    }
  }

  /** The n-th result holds the elements at the positions with number n. */
  lemma ResultAt<T>(lists: seq<seq<T>>, n: nat)
    requires n < |Results(lists)|
    ensures n < Total(lists) && Results(lists)[n] == Picked(lists, Digits(lists, n))
  {
    TuplesLength(lists);
    DigitsAreNumber(lists, n);
    TuplesByNumber(lists, Digits(lists, n));
  }

  // ----- the odometer

  predicate AtEnd<T>(lists: seq<seq<T>>, d: seq<nat>, from: nat)
    requires |d| == |lists|
  {
    forall i :: from <= i < |d| ==> d[i] + 1 == |lists[i]|
  }

  lemma {:induction false} LastValue<T>(lists: seq<seq<T>>, d: seq<nat>)
    requires InRange(lists, d) && AtEnd(lists, d, 0)
    ensures Value(lists, d) + 1 == Total(lists)
  {
    if d != [] {
      LastValue(lists[1..], d[1..]);
      OneMore(d[0], Total(lists[1..]));
    }
  }

  lemma {:induction false} FirstValue<T>(lists: seq<seq<T>>, d: seq<nat>)
    requires InRange(lists, d) && forall i :: 0 <= i < |d| ==> d[i] == 0
    ensures Value(lists, d) == 0
  {
    if d != [] {
      FirstValue(lists[1..], d[1..]);
    }
  }

  lemma OneMore(a: nat, m: nat)
    ensures (a + 1) * m == a * m + m
  {
  }

  /** Advancing one position and clearing those behind it, which stood at their end, counts
      up by one. */
  lemma {:induction false} CarryCounts<T>(lists: seq<seq<T>>, d: seq<nat>, e: seq<nat>, b: nat)
    requires InRange(lists, d) && InRange(lists, e) && b < |d| && AtEnd(lists, d, b + 1)
    requires e[..b] == d[..b] && e[b] == d[b] + 1 && forall i :: b < i < |e| ==> e[i] == 0
    ensures Value(lists, e) == Value(lists, d) + 1
  {
    hide Total;
    var m := Total(lists[1..]);
    if b == 0 {
      LastValue(lists[1..], d[1..]);
      FirstValue(lists[1..], e[1..]);
      OneMore(d[0], m);
    } else {
      assert e[0] == e[..b][0] == d[..b][0] == d[0];
      assert e[1..][..b - 1] == e[..b][1..] == d[1..][..b - 1];
      CarryCounts(lists[1..], d[1..], e[1..], b - 1);
    }
  }

  lemma {:induction false} SomeEmpty<T>(lists: seq<seq<T>>)
    ensures Total(lists) == 0 <==> exists i :: 0 <= i < |lists| && |lists[i]| == 0
  {
    if lists != [] {
      SomeEmpty(lists[1..]);
      assert forall i :: 0 < i < |lists| ==> lists[i] == lists[1..][i - 1];
      assert forall i :: 0 <= i < |lists[1..]| ==> lists[1..][i] == lists[i + 1];
      if lists[0] != [] && Total(lists[1..]) > 0 {
        assert |lists[0]| * Total(lists[1..]) >= 1 * Total(lists[1..]);
      }
    }
  }

  class ProductIterator<T> {
    const lists: seq<seq<T>>
    var counters: array?<nat>

    predicate Valid()
      reads this, counters
    {
      counters != null ==> lists != [] && InRange(lists, counters[..])
    }

    /** The number of tuples returned so far. */
    ghost function Position(): (n: nat)
      requires Valid()
      reads this, counters
    {
      if counters == null then |Results(lists)| else Value(lists, counters[..])
    }

    constructor (lists: seq<seq<T>>)
      ensures Valid() && this.lists == lists && Position() == 0
      ensures counters != null ==> fresh(counters)
    {
      this.lists := lists;
      counters := null;
      new;
      SomeEmpty(lists);
      if lists != [] && forall i :: 0 <= i < |lists| ==> |lists[i]| > 0 {
        counters := new nat[|lists|](i => 0);
        FirstValue(lists, counters[..]);
      } else if lists != [] {
        TuplesLength(lists);
      }
    }

    method Current() returns (tuple: seq<T>)
      requires Valid() && counters != null
      ensures Position() < |Results(lists)| && tuple == Results(lists)[Position()]
    {
      ghost var d := counters[..];
      TuplesByNumber(lists, d);
      tuple := [];
      for i := 0 to counters.Length
        invariant tuple == Picked(lists, d)[..i]
      {
        tuple := tuple + [lists[i][counters[i]]];
      }
    }

    /** Some tuple, or None for the exception that ends an iteration. */
    method Next() returns (r: Option<seq<T>>)
      requires Valid()
      modifies this`counters, counters
      ensures Valid() && (counters == null || counters == old(counters))
      ensures var n := old(Position());
        if n < |Results(lists)| then r == Some(Results(lists)[n]) && Position() == n + 1
        else r == None && Position() == n
    {
      hide Value, Tuples, Total;
      if counters == null {
        return None;
      }
      var tuple := Current();
      r := Some(tuple);
      ghost var d := counters[..];
      var b := counters.Length - 1;
      while b >= 0
        invariant counters == old(counters) && 0 <= b < counters.Length
        invariant AtEnd(lists, d, b + 1)
        invariant counters[..b + 1] == d[..b + 1]
        invariant forall i :: b < i < counters.Length ==> counters[i] == 0
        decreases b
      {
        assert counters[b] == counters[..b + 1][b] == d[b];
        if counters[b] < |lists[b]| - 1 {
          counters[b] := counters[b] + 1;
          CarryCounts(lists, d, counters[..], b);
          break;
        }
        if b == 0 {
          LastValue(lists, d);
          TuplesLength(lists);
          counters := null;
          break;
        }
        counters[b] := 0;
        b := b - 1;
      }
    }
  }

  lemma TuplesLength<T>(lists: seq<seq<T>>)
    ensures |Tuples(lists)| == Total(lists)
  {
    if lists != [] {
      TuplesLength(lists[1..]);
      PrependedLength(lists[0], Tuples(lists[1..]));
    }
  }

  /** `goog.iter.toArray` collects the whole product. */
  method ToArray<T>(it: ProductIterator<T>) returns (b: seq<seq<T>>)
    requires it.Valid() && it.Position() == 0
    modifies it`counters, it.counters
    ensures b == Results(it.lists)
  {
    b := [];
    var r := it.Next();
    while r.Some?
      invariant it.Valid() && (it.counters == null || it.counters == old(it.counters))
      invariant |b| <= |Results(it.lists)| && b == Results(it.lists)[..|b|]
      invariant if r.Some? then |b| < |Results(it.lists)| && r.value == Results(it.lists)[|b|] && it.Position() == |b| + 1
        else |b| == |Results(it.lists)|
      decreases |Results(it.lists)| - |b|
    {
      b := b + [r.value];
      r := it.Next();
    }
  }
}
