/** `goog.math.longestCommonSubsequence`, with the bounds of the loops as they are: the inner
    filling loop runs to the length of the first sequence, not of the second. */
module Subsequence {
  /** An element read from an array: reading past the end gives `undefined`. */
  datatype Maybe<+T> = Undefined | Item(value: T)

  /** A cell of the table, as JavaScript keeps it. */
  datatype Cell = Empty | NaN | Num(n: nat)

  type Pair = (nat, nat)

  function At<T>(s: seq<T>, i: nat): Maybe<T> {
    if i < |s| then Item(s[i]) else Undefined
  }

  function AddOne(c: Cell): Cell {
    if c.Num? then Num(c.n + 1) else NaN
  }

  /** `Math.max` */
  function MaxCell(a: Cell, b: Cell): Cell {
    if a.Num? && b.Num? then Num(if a.n >= b.n then a.n else b.n) else NaN
  }

  /** `a > b`, false when a side is no number */
  predicate Greater(a: Cell, b: Cell) {
    a.Num? && b.Num? && a.n > b.n
  }

  // ----- common subsequences, under any comparator

  /** Positions in a and b, increasing in both, at which the comparator holds. */
  ghost predicate Common<A, B>(ps: seq<Pair>, a: seq<A>, b: seq<B>, cmp: (A, Maybe<B>) -> bool) {
    && (forall i :: 0 <= i < |ps| ==> ps[i].0 < |a| && ps[i].1 < |b| && cmp(a[ps[i].0], Item(b[ps[i].1])))
    && (forall i, j :: 0 <= i < j < |ps| ==> ps[i].0 < ps[j].0 && ps[i].1 < ps[j].1)
  }

  /** The length of a longest common subsequence of the first h and the first i elements. */
  function Best<A, B>(a: seq<A>, b: seq<B>, cmp: (A, Maybe<B>) -> bool, h: nat, i: nat): nat
    requires h <= |a| && i <= |b|
    decreases h + i
  {
    if h == 0 || i == 0 then 0
    else if cmp(a[h - 1], Item(b[i - 1])) then Best(a, b, cmp, h - 1, i - 1) + 1
    else
      var up, left := Best(a, b, cmp, h - 1, i), Best(a, b, cmp, h, i - 1);
      if up >= left then up else left
  }

  ghost predicate Within(ps: seq<Pair>, h: nat, i: nat) {
    forall j :: 0 <= j < |ps| ==> ps[j].0 < h && ps[j].1 < i
  }

  lemma CommonPrefix<A, B>(ps: seq<Pair>, a: seq<A>, b: seq<B>, cmp: (A, Maybe<B>) -> bool)
    requires Common(ps, a, b, cmp) && ps != []
    ensures var rest, p := ps[..|ps| - 1], ps[|ps| - 1]; Common(rest, a, b, cmp) && Within(rest, p.0, p.1)
  {
  }

  /** No common subsequence is longer than `Best` says. */
  lemma {:induction false} BestBounds<A, B>(
    ps: seq<Pair>, a: seq<A>, b: seq<B>, cmp: (A, Maybe<B>) -> bool, h: nat, i: nat)
    requires h <= |a| && i <= |b| && Common(ps, a, b, cmp) && Within(ps, h, i)
    ensures |ps| <= Best(a, b, cmp, h, i)
    decreases h + i
  {
    if ps != [] {
      var rest, p := ps[..|ps| - 1], ps[|ps| - 1];
      CommonPrefix(ps, a, b, cmp);
      if cmp(a[h - 1], Item(b[i - 1])) {
        BestBounds(rest, a, b, cmp, h - 1, i - 1);
      } else if p.0 < h - 1 {
        assert Within(ps, h - 1, i);
        BestBounds(ps, a, b, cmp, h - 1, i);
      } else {
        assert Within(ps, h, i - 1);
        BestBounds(ps, a, b, cmp, h, i - 1);
      }
    }
  }

  // ----- the table

  /** The value of a cell when the table has been filled: row 0 and column 0 are zero, and the
      filling reaches the columns up to |a|. */
  function Table<A, B>(a: seq<A>, b: seq<B>, cmp: (A, Maybe<B>) -> bool, h: nat, i: nat): Cell
    requires h <= |a|
    decreases h, i
  {
    if h == 0 then (if i <= |b| then Num(0) else Empty)
    else if i == 0 then Num(0)
    else if i > |a| then Empty
    else if cmp(a[h - 1], At(b, i - 1)) then AddOne(Table(a, b, cmp, h - 1, i - 1))
    else MaxCell(Table(a, b, cmp, h - 1, i), Table(a, b, cmp, h, i - 1))
  }

  lemma {:induction false} TableIsBest<A, B>(a: seq<A>, b: seq<B>, cmp: (A, Maybe<B>) -> bool, h: nat, i: nat)
    requires h <= |a| && i <= |b| && i <= |a|
    ensures Table(a, b, cmp, h, i) == Num(Best(a, b, cmp, h, i))
    decreases h, i
  {
    if h > 0 && i > 0 {
      TableIsBest(a, b, cmp, h - 1, i - 1);
      TableIsBest(a, b, cmp, h - 1, i);
      TableIsBest(a, b, cmp, h, i - 1);
    }
  }

  // ----- reading the result off the table

  /** The pairs the second part of the function visits, from the ends of both sequences. */
  function Trace<A, B>(a: seq<A>, b: seq<B>, cmp: (A, Maybe<B>) -> bool, h: nat, i: nat): seq<Pair>
    requires h <= |a| && i <= |b|
    decreases h + i
  {
    if h == 0 || i == 0 then []
    else if cmp(a[h - 1], Item(b[i - 1])) then Trace(a, b, cmp, h - 1, i - 1) + [(h - 1, i - 1)]
    else if Greater(Table(a, b, cmp, h - 1, i), Table(a, b, cmp, h, i - 1)) then Trace(a, b, cmp, h - 1, i)
    else Trace(a, b, cmp, h, i - 1)
  }

  function Pairs<A, B>(a: seq<A>, b: seq<B>, cmp: (A, Maybe<B>) -> bool): seq<Pair> {
    Trace(a, b, cmp, |a|, |b|)
  }

  lemma CommonExtends<A, B>(ps: seq<Pair>, a: seq<A>, b: seq<B>, cmp: (A, Maybe<B>) -> bool, h: nat, i: nat)
    requires Common(ps, a, b, cmp) && Within(ps, h, i) && h < |a| && i < |b| && cmp(a[h], Item(b[i]))
    ensures Common(ps + [(h, i)], a, b, cmp) && Within(ps + [(h, i)], h + 1, i + 1)
  {
  }

  lemma WithinGrows(ps: seq<Pair>, h: nat, i: nat)
    ensures Within(ps, h, i) ==> Within(ps, h + 1, i) && Within(ps, h, i + 1)
  {
  }

  /** Whatever the lengths and the comparator, the result is a common subsequence. */
  lemma {:induction false} TraceIsCommon<A, B>(a: seq<A>, b: seq<B>, cmp: (A, Maybe<B>) -> bool, h: nat, i: nat)
    requires h <= |a| && i <= |b|
    ensures Common(Trace(a, b, cmp, h, i), a, b, cmp) && Within(Trace(a, b, cmp, h, i), h, i)
    decreases h + i
  {
    hide Common, Within, Table, Greater;
    if h == 0 || i == 0 {
      NothingIsCommon(a, b, cmp, h, i);
    } else if cmp(a[h - 1], Item(b[i - 1])) {
      TraceIsCommon(a, b, cmp, h - 1, i - 1);
      CommonExtends(Trace(a, b, cmp, h - 1, i - 1), a, b, cmp, h - 1, i - 1);
    } else if Greater(Table(a, b, cmp, h - 1, i), Table(a, b, cmp, h, i - 1)) {
      TraceIsCommon(a, b, cmp, h - 1, i);
      WithinGrows(Trace(a, b, cmp, h - 1, i), h - 1, i);
    } else {
      TraceIsCommon(a, b, cmp, h, i - 1);
      WithinGrows(Trace(a, b, cmp, h, i - 1), h, i - 1);
    }
  }

  lemma NothingIsCommon<A, B>(a: seq<A>, b: seq<B>, cmp: (A, Maybe<B>) -> bool, h: nat, i: nat)
    ensures Common([], a, b, cmp) && Within([], h, i)
  {
  }

  /** The filled part of the table leads to a longest one. */
  lemma {:induction false} TraceIsBest<A, B>(a: seq<A>, b: seq<B>, cmp: (A, Maybe<B>) -> bool, h: nat, i: nat)
    requires h <= |a| && i <= |b| && (i <= |a| || |a| <= 1)
    ensures |Trace(a, b, cmp, h, i)| == Best(a, b, cmp, h, i)
    decreases h + i
  {
    if h > 0 && i > 0 {
      if cmp(a[h - 1], Item(b[i - 1])) {
        TraceIsBest(a, b, cmp, h - 1, i - 1);
      } else {
        TraceIsBest(a, b, cmp, h - 1, i);
        TraceIsBest(a, b, cmp, h, i - 1);
        if i <= |a| {
          TableIsBest(a, b, cmp, h - 1, i);
          TableIsBest(a, b, cmp, h, i - 1);
        }
      }
    }
  }

  ghost predicate Longest<A, B>(ps: seq<Pair>, a: seq<A>, b: seq<B>, cmp: (A, Maybe<B>) -> bool) {
    Common(ps, a, b, cmp) && forall qs: seq<Pair> :: Common(qs, a, b, cmp) ==> |qs| <= |ps|
  }

  /** When the filling loop reaches the end of b, or a has at most one element, the result is
      longest among all common subsequences. */
  lemma PairsAreLongest<A, B>(a: seq<A>, b: seq<B>, cmp: (A, Maybe<B>) -> bool)
    requires |b| <= |a| || |a| <= 1
    ensures Longest(Pairs(a, b, cmp), a, b, cmp)
  {
    TraceIsCommon(a, b, cmp, |a|, |b|);
    TraceIsBest(a, b, cmp, |a|, |b|);
    forall qs: seq<Pair> | Common(qs, a, b, cmp) ensures |qs| <= |Pairs(a, b, cmp)| {
      BestBounds(qs, a, b, cmp, |a|, |b|);
    }
  }

  /** Of all longest ones, up to any position, the one read off ends latest in a. */
  lemma {:induction false} TraceEndsLatest<A, B>(
    a: seq<A>, b: seq<B>, cmp: (A, Maybe<B>) -> bool, h: nat, i: nat, ps: seq<Pair>)
    requires h <= |a| && i <= |b| && (i <= |a| || |a| <= 1)
    requires Common(ps, a, b, cmp) && Within(ps, h, i) && |ps| == Best(a, b, cmp, h, i) && ps != []
    ensures var t := Trace(a, b, cmp, h, i); t != [] && ps[|ps| - 1].0 <= t[|t| - 1].0
    decreases h + i
  {
    hide Common, Within, Table, Best;
    TraceIsBest(a, b, cmp, h, i);
    TraceIsCommon(a, b, cmp, h, i);
    LastIsWithin(ps, h, i);
    var t, p := Trace(a, b, cmp, h, i), ps[|ps| - 1];
    if cmp(a[h - 1], Item(b[i - 1])) || |a| <= 1 {
      LastIsWithin(t, h, i);
    } else {
      TableIsBest(a, b, cmp, h - 1, i);
      TableIsBest(a, b, cmp, h, i - 1);
      BestSteps(a, b, cmp, h, i);
      LastMatches(ps, a, b, cmp);
      if Greater(Table(a, b, cmp, h - 1, i), Table(a, b, cmp, h, i - 1)) {
        if p.1 < i - 1 {
          WithinLast(ps, a, b, cmp, h, i - 1);
          BestBounds(ps, a, b, cmp, h, i - 1);
        } else {
          WithinLast(ps, a, b, cmp, h - 1, i);
          TraceEndsLatest(a, b, cmp, h - 1, i, ps);
        }
      } else if p.1 < i - 1 {
        WithinLast(ps, a, b, cmp, h, i - 1);
        TraceEndsLatest(a, b, cmp, h, i - 1, ps);
      } else if t[|t| - 1].0 < p.0 {
        TraceIsCommon(a, b, cmp, h, i - 1);
        LastIsWithin(t, h, i - 1);
        WithinLast(t, a, b, cmp, p.0, i - 1);
        CommonExtends(t, a, b, cmp, p.0, i - 1);
        WithinMore(t + [(p.0, i - 1)], p.0 + 1, i, h);
        BestBounds(t + [(p.0, i - 1)], a, b, cmp, h, i);
      }
    }
  }

  lemma LastIsWithin(ps: seq<Pair>, h: nat, i: nat)
    requires Within(ps, h, i) && ps != []
    ensures ps[|ps| - 1].0 < h && ps[|ps| - 1].1 < i
  {
  }

  lemma LastMatches<A, B>(ps: seq<Pair>, a: seq<A>, b: seq<B>, cmp: (A, Maybe<B>) -> bool)
    requires Common(ps, a, b, cmp) && ps != []
    ensures var p := ps[|ps| - 1]; p.0 < |a| && p.1 < |b| && cmp(a[p.0], Item(b[p.1]))
  {
  }

  lemma WithinLast<A, B>(ps: seq<Pair>, a: seq<A>, b: seq<B>, cmp: (A, Maybe<B>) -> bool, h: nat, i: nat)
    requires Common(ps, a, b, cmp) && ps != [] && ps[|ps| - 1].0 < h && ps[|ps| - 1].1 < i
    ensures Within(ps, h, i)
  {
  }

  lemma WithinMore(ps: seq<Pair>, h: nat, i: nat, h': nat)
    requires Within(ps, h, i) && h <= h'
    ensures Within(ps, h', i)
  {
  }

  lemma BestSteps<A, B>(a: seq<A>, b: seq<B>, cmp: (A, Maybe<B>) -> bool, h: nat, i: nat)
    requires 0 < h <= |a| && 0 < i <= |b| && !cmp(a[h - 1], Item(b[i - 1]))
    ensures var up, left := Best(a, b, cmp, h - 1, i), Best(a, b, cmp, h, i - 1);
      Best(a, b, cmp, h, i) == if up >= left then up else left
  {
  }

  predicate Same(x: int, y: Maybe<int>) {
    y == Item(x)
  }

  /** Two sequences of the given lengths with one element in common, the first of one and the
      last of the other. */
  function HeadThen(n: nat): seq<int>
    requires n > 0
  {
    [1] + seq(n - 1, _ => 2)
  }

  function LastAfter(n: nat): seq<int>
    requires n > 0
  {
    seq(n - 1, _ => 3) + [1]
  }

  lemma {:induction false} NoMatchInTable(e: nat, f: nat, h: nat, i: nat)
    requires 2 <= e < f && h <= e && i <= e
    ensures Table(HeadThen(e), LastAfter(f), Same, h, i) == Num(0)
    decreases h, i
  {
    if h > 0 && i > 0 {
      NoMatchInTable(e, f, h - 1, i);
      NoMatchInTable(e, f, h, i - 1);
    }
  }

  lemma {:induction false} UnfilledScan(e: nat, f: nat, i: nat)
    requires 2 <= e < f && i <= f
    ensures Trace(HeadThen(e), LastAfter(f), Same, e, i) == []
  {
    if i > 0 {
      UnfilledScan(e, f, i - 1);
      if i <= e {
        NoMatchInTable(e, f, e - 1, i);
      }
    }
  }

  lemma ShortResult(e: nat, f: nat)
    requires 2 <= e < f
    ensures !Longest(Pairs(HeadThen(e), LastAfter(f), Same), HeadThen(e), LastAfter(f), Same)
  {
    UnfilledScan(e, f, f);
    var qs: seq<Pair> := [(0, f - 1)];
    assert Common(qs, HeadThen(e), LastAfter(f), Same);
  }

  /** For given lengths, the result is longest for all contents exactly when b is no longer
      than a or a has at most one element. */
  lemma LongestExactly(e: nat, f: nat)
    ensures (forall a: seq<int>, b: seq<int> :: |a| == e && |b| == f ==> Longest(Pairs(a, b, Same), a, b, Same))
      <==> f <= e || e <= 1
  {
    if f <= e || e <= 1 {
      forall a: seq<int>, b: seq<int> | |a| == e && |b| == f ensures Longest(Pairs(a, b, Same), a, b, Same) {
        PairsAreLongest(a, b, Same);
      }
    } else {
      ShortResult(e, f);
      var a, b := HeadThen(e), LastAfter(f);
      assert |a| == e && |b| == f && !Longest(Pairs(a, b, Same), a, b, Same);
    }
  }

  // ----- the function itself

  /** What is collected: for each pair its position in a and its position in b, in order. */
  function Collect<C>(ps: seq<Pair>, collect: (nat, nat) -> C): (r: seq<C>)
    ensures |r| == |ps| && forall n :: 0 <= n < |ps| ==> r[n] == collect(ps[n].0, ps[n].1)
  {
    if ps == [] then [] else [collect(ps[0].0, ps[0].1)] + Collect(ps[1..], collect)
  }

  lemma CellOf<A, B>(a: seq<A>, b: seq<B>, cmp: (A, Maybe<B>) -> bool, h: nat, i: nat)
    requires 1 <= h <= |a| && 1 <= i <= |a|
    ensures Table(a, b, cmp, h, i) ==
      if cmp(a[h - 1], At(b, i - 1)) then AddOne(Table(a, b, cmp, h - 1, i - 1))
      else MaxCell(Table(a, b, cmp, h - 1, i), Table(a, b, cmp, h, i - 1))
  {
  }

  /** The cells the filling does not reach. */
  lemma EdgeCells<A, B>(a: seq<A>, b: seq<B>, cmp: (A, Maybe<B>) -> bool)
    ensures forall i: nat :: Table(a, b, cmp, 0, i) == if i <= |b| then Num(0) else Empty
    ensures forall h: nat :: h <= |a| ==> Table(a, b, cmp, h, 0) == Num(0)
    ensures forall h: nat, i: nat :: 0 < h <= |a| < i ==> Table(a, b, cmp, h, i) == Empty
  {
  }

  method FillTable<A, B>(a: seq<A>, b: seq<B>, cmp: (A, Maybe<B>) -> bool) returns (g: array2<Cell>)
    ensures fresh(g) && g.Length0 == |a| + 1 && g.Length1 > |a| && g.Length1 > |b|
    ensures forall h, i :: 0 <= h <= |a| && 0 <= i < g.Length1 ==> g[h, i] == Table(a, b, cmp, h, i)
  {
    hide Table, At, AddOne, MaxCell;
    EdgeCells(a, b, cmp);
    var e, f := |a|, |b|;
    g := new Cell[e + 1, (if e >= f then e else f) + 1]((h, i) => Empty);
    for h := 0 to e + 1
      invariant forall k, i :: 0 <= k <= e && 0 <= i < g.Length1 ==>
        g[k, i] == if k < h && i == 0 then Num(0) else Empty
    {
      g[h, 0] := Num(0);
    }
    for i := 0 to f + 1
      invariant forall k, j :: 0 <= k <= e && 0 <= j < g.Length1 ==>
        g[k, j] == if j == 0 || (k == 0 && j < i) then Num(0) else Empty
    {
      g[0, i] := Num(0);
    }
    for h := 1 to e + 1
      invariant forall k, j :: 0 <= k < h && 0 <= j < g.Length1 ==> g[k, j] == Table(a, b, cmp, k, j)
      invariant forall k, j :: h <= k <= e && 0 <= j < g.Length1 ==> g[k, j] == if j == 0 then Num(0) else Empty
    {
      for i := 1 to e + 1
        invariant forall k, j :: 0 <= k < h && 0 <= j < g.Length1 ==> g[k, j] == Table(a, b, cmp, k, j)
        invariant forall j :: 0 <= j < i ==> g[h, j] == Table(a, b, cmp, h, j)
        invariant forall j :: i <= j < g.Length1 ==> g[h, j] == Empty
        invariant forall k, j :: h < k <= e && 0 <= j < g.Length1 ==> g[k, j] == if j == 0 then Num(0) else Empty
      {
        CellOf(a, b, cmp, h, i);
        g[h, i] :=
          if cmp(a[h - 1], At(b, i - 1)) then AddOne(g[h - 1, i - 1]) else MaxCell(g[h - 1, i], g[h, i - 1]);
      }
    }
  }

  /** One step of the loop below. */
  lemma TraceStep<A, B, C>(
    a: seq<A>, b: seq<B>, cmp: (A, Maybe<B>) -> bool, h: nat, i: nat, done: seq<Pair>, collect: (nat, nat) -> C)
    requires 0 < h <= |a| && 0 < i <= |b|
    ensures Trace(a, b, cmp, h, i) + done ==
      if cmp(a[h - 1], Item(b[i - 1])) then Trace(a, b, cmp, h - 1, i - 1) + ([(h - 1, i - 1)] + done)
      else if Greater(Table(a, b, cmp, h - 1, i), Table(a, b, cmp, h, i - 1)) then Trace(a, b, cmp, h - 1, i) + done
      else Trace(a, b, cmp, h, i - 1) + done
    ensures Collect([(h - 1, i - 1)] + done, collect) == [collect(h - 1, i - 1)] + Collect(done, collect)
  {
    hide Table, Greater;
    assert ([(h - 1, i - 1)] + done)[1..] == done;
  }

  method LongestCommonSubsequence<A, B, C>(
    a: seq<A>, b: seq<B>, cmp: (A, Maybe<B>) -> bool, collect: (nat, nat) -> C) returns (j: seq<C>)
    ensures j == Collect(Pairs(a, b, cmp), collect)
  {
    hide Trace, Collect, Greater;
    var g := FillTable(a, b, cmp);
    NothingTraced(a, b, cmp, collect);
    j := [];
    var h: nat, i: nat := |a|, |b|;
    ghost var done: seq<Pair> := [];
    while h > 0 && i > 0
      invariant h <= |a| && i <= |b|
      invariant forall k, l :: 0 <= k <= |a| && 0 <= l < g.Length1 ==> g[k, l] == Table(a, b, cmp, k, l)
      invariant Pairs(a, b, cmp) == Trace(a, b, cmp, h, i) + done && j == Collect(done, collect)
      decreases h + i
    {
      TraceStep(a, b, cmp, h, i, done, collect);
      if cmp(a[h - 1], Item(b[i - 1])) {
        j := [collect(h - 1, i - 1)] + j;
        done := [(h - 1, i - 1)] + done;
        h, i := h - 1, i - 1;
      } else if Greater(g[h - 1, i], g[h, i - 1]) {
        h := h - 1;
      } else {
        i := i - 1;
      }
    }
    assert Trace(a, b, cmp, h, i) + done == done;
  }

  lemma NothingTraced<A, B, C>(a: seq<A>, b: seq<B>, cmp: (A, Maybe<B>) -> bool, collect: (nat, nat) -> C)
    ensures Collect([], collect) == [] && Pairs(a, b, cmp) + [] == Pairs(a, b, cmp)
    ensures forall h: nat, i: nat :: h <= |a| && i <= |b| && (h == 0 || i == 0) ==> Trace(a, b, cmp, h, i) == []
  {
  }
}
