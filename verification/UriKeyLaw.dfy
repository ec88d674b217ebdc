/** For one key, exactly on which URLs `setParam` and `removeParam` treat it as they should. */
module UriKeyLaw {
  import opened UriParams
  import opened UriPieces
  import opened UriEdits
  import opened UriSetParam
  import opened UriSetParamExact

  /** In a piece that opens the key no other key opens before it. */
  ghost predicate KeyFirstIn(s: string, k: string) {
    forall y, i: nat :: KeyOk(y) && i < Opening(s, k) ==> !IsParamAt(s, y, i)
  }

  ghost predicate KeyFirst(ps: seq<string>, k: string) {
    forall i :: 0 <= i < |ps| ==> KeyFirstIn(ps[i], k)
  }

  /** The pieces that do not open the key. */
  function Without(ps: seq<string>, k: string): seq<string> {
    if ps == [] then [] else (if Opening(ps[0], k) < 0 then [ps[0]] else []) + Without(ps[1..], k)
  }

  lemma WithoutUnfold(s: string, rest: seq<string>, k: string)
    ensures Without([s] + rest, k) == if Opening(s, k) < 0 then [s] + Without(rest, k) else Without(rest, k)
  {
    hide Opening;
    assert ([s] + rest)[1..] == rest;
  }

  // ----- what is left, on values

  lemma JoinedKeyFirst(s: string, k: string, r: string)
    requires KeyOk(k) && IsNext(r) && Opening(s, k) >= 0 && KeyFirstIn(s, k) && KeyFirstIn(r, k)
    ensures var p := Opening(s, k);
      && 0 < p <= |s| && s[p - 1] in {'&', '?'} && KeyFirstIn(s[..p] + Tail(r), k)
      && (Opening(s[..p] + Tail(r), k) < 0 <==> Opening(r, k) < 0)
  {
    hide IsParamAt, KeyOk, IsPiece;
    var p := Opening(s, k);
    ParamInside(s, k, p);
    JoinedOpening(s, p, r, k);
    var m := s[..p] + Tail(r);
    forall y, j: nat | KeyOk(y) && j < Opening(m, k) ensures !IsParamAt(m, y, j) {
      Joined(s, p, r, y, j);
    }
  }

  /** When the key comes first in its pieces, what is left without it has the values of the other
      pieces. */
  lemma {:induction false} LeftValues(s: string, rest: seq<string>, k: string, y: string)
    requires KeyOk(k) && KeyOk(y) && IsPiece(s) && AreNext(rest) && KeyFirstIn(s, k) && KeyFirst(rest, k)
    ensures Values(Left(s, rest, k), y) == Values(Without([s] + rest, k), y)
    decreases |rest|
  {
    hide IsParamAt, Opening, KeyOk, IsPiece, Values, ValueIn, KeyFirstIn, Without;
    var p := Opening(s, k);
    WithoutUnfold(s, rest, k);
    NoneWithout(k);
    if rest != [] {
      assert [rest[0]] + rest[1..] == rest;
      WithoutUnfold(rest[0], rest[1..], k);
    }
    if p < 0 {
      if rest == [] {
        assert [s] + [] == [s];
      } else {
        LeftValues(rest[0], rest[1..], k, y);
        ValuesOfFirst(s, Left(rest[0], rest[1..], k), y);
        ValuesOfFirst(s, Without(rest, k), y);
      }
    } else if rest == [] {
      CutBefore(s, k, y);
      ValuesOfOne(s[..p], y);
      NoValues([], y);
    } else {
      JoinedKeyFirst(s, k, rest[0]);
      var m := s[..p] + Tail(rest[0]);
      JoinedIsPiece(s, p, rest[0]);
      CutBefore(s, k, y);
      JoinedOpening(s, p, rest[0], y);
      LeftValues(m, rest[1..], k, y);
      WithoutUnfold(m, rest[1..], k);
      ValuesOfFirst(m, Without(rest[1..], k), y);
      ValuesOfFirst(rest[0], Without(rest[1..], k), y);
    }
  }

  lemma NoneWithout(k: string)
    ensures Without([], k) == []
  {
  }

  lemma CutBefore(s: string, k: string, y: string)
    requires KeyOk(k) && KeyOk(y) && IsPiece(s) && Opening(s, k) >= 0 && KeyFirstIn(s, k)
    ensures var p := Opening(s, k);
      0 < p <= |s| && s[p - 1] in {'&', '?'} && (forall j :: 0 < j < p ==> !IsParamAt(s, y, j)) && ValueIn(s[..p], y) == []
  {
    hide IsParamAt, KeyOk, IsPiece;
    ParamInside(s, k, Opening(s, k));
    CutHere(s, Opening(s, k), y);
  }

  /** The values of the other pieces are among all values, in order. */
  lemma {:induction false} ValuesWithout(ps: seq<string>, k: string, y: string)
    ensures |Values(Without(ps, k), y)| <= |Values(ps, y)|
    ensures |Values(Without(ps, k), y)| == |Values(ps, y)| ==> Values(Without(ps, k), y) == Values(ps, y)
  {
    hide ValueIn, Opening, Values, Without;
    NoneWithout(k);
    NoValues([], y);
    if ps != [] {
      ValuesWithout(ps[1..], k, y);
      assert [ps[0]] + ps[1..] == ps;
      WithoutUnfold(ps[0], ps[1..], k);
      ValuesOfFirst(ps[0], ps[1..], y);
      ValuesOfFirst(ps[0], Without(ps[1..], k), y);
    }
  }

  lemma {:induction false} KeyIsGone(ps: seq<string>, k: string)
    ensures Values(Without(ps, k), k) == []
  {
    hide Opening, Values, ValueAt, Without;
    NoneWithout(k);
    NoValues([], k);
    if ps != [] {
      KeyIsGone(ps[1..], k);
      assert [ps[0]] + ps[1..] == ps;
      WithoutUnfold(ps[0], ps[1..], k);
      ValuesOfFirst(ps[0], Without(ps[1..], k), k);
    }
  }

  // ----- the end

  /** The piece opens one key, and that only as its last word. */
  ghost predicate OnlyBare(l: string, z: string) {
    && KeyOk(z) && Opening(l, z) >= 0 && Opening(l, z) + |z| == |l|
    && forall y, i: nat :: KeyOk(y) && IsParamAt(l, y, i) ==> y == z
  }

  /** What the end of the pieces does to no key, or adds to one: l is the last piece after a
      question mark has been cut off from `kept`, and j stands before a parameter appended. */
  ghost predicate EndKeeps(l: string, j: string, k: string, kept: string) {
    if j == "&" then kept == l || NoKey(l) || exists z :: z != k && OnlyBare(l, z) else NoKey(kept)
  }

  /** An empty value of a word that becomes a key when the question mark behind it goes. */
  ghost function Gain(l: string, j: string, kept: string, y: string): seq<string> {
    if j == "&" && kept != l && OnlyBare(l, y) then [""] else []
  }

  lemma BareValues(l: string, z: string, y: string)
    requires OnlyBare(l, z) && KeyOk(y)
    ensures ValueIn(l, y) == (if y == z then [""] else []) && ValueIn(l + "?", y) == []
    ensures OnlyBare(l, y) <==> y == z
  {
    hide IsParamAt, KeyOk;
    var m := l + "?";
    assert m[..|l|] == l;
    NotAtStart(m, y);
    if Opening(m, y) >= 0 {
      NonBare(l, y, Opening(m, y));
      BeforeMark(m, |l|, y, Opening(m, y));
      NotAtStart(l, y);
      assert false;
    }
  }

  lemma InsideKeeps(l: string, k: string, kept: string, v: string, y: string)
    requires KeyOk(k) && KeyOk(y) && (kept == l || kept == l + "?") && ValueIn(kept, k) == []
    requires EndKeeps(l, "&", k, kept)
    ensures EndValues(l, "&", k, v, k) == [v]
    ensures y != k ==> EndValues(l, "&", k, v, y) == ValueIn(kept, y) + Gain(l, "&", kept, y)
  {
    hide KeyOk, NoKey, OnlyBare, ValueIn;
    if kept != l {
      if NoKey(l) {
        MarkAddsNone(l);
        NoKeyNoValue(l, y);
        NoKeyNoValue(l, k);
        NoKeyNoValue(kept, y);
        NoneBare(l, y);
      } else {
        var z :| z != k && OnlyBare(l, z);
        BareValues(l, z, y);
        BareValues(l, z, k);
      }
    }
  }

  lemma NoneBare(l: string, y: string)
    requires NoKey(l)
    ensures !OnlyBare(l, y)
  {
    hide KeyOk, IsParamAt;
  }

  lemma GluedKeeps(l: string, j: string, k: string, kept: string, v: string, y: string)
    requires KeyOk(k) && KeyOk(y) && Free(v) && (kept == l || kept == l + "?") && NoKey(kept)
    requires j == "?" || (j == "" && EndsWithMark(l))
    ensures EndValues(l, j, k, v, y) == (if y == k then [v] else []) && ValueIn(kept, y) == []
  {
    hide KeyOk, Free, NoKey, ValueIn, Opening;
    var s := if j == "?" then l else l[..|l| - 1];
    assert l + j == s + "?" && l + "" == l;
    if kept == s {
      MarkAddsNone(s);
    } else if kept != s + "?" {
      SecondMark(l);
    }
    NoOpening(s + "?", y);
    GluedValue(s, k, v, y);
    NoKeyNoValue(kept, y);
  }

  /** A key that the end changes: the key set has a value too many, or another has another value
      and none more. */
  ghost predicate Changed(l: string, j: string, k: string, kept: string, y: string) {
    if y == k then EndValues(l, j, k, "", k) != [""]
    else |EndValues(l, j, k, "", y)| <= |ValueIn(kept, y)| && EndValues(l, j, k, "", y) != ValueIn(kept, y)
  }

  lemma EndBreaks(l: string, j: string, k: string, kept: string) returns (y: string)
    requires KeyOk(k) && (kept == l || kept == l + "?") && ValueIn(kept, k) == [] && !EndKeeps(l, j, k, kept)
    requires j == "&" || j == "?" || (j == "" && EndsWithMark(l))
    ensures KeyOk(y) && Changed(l, j, k, kept, y)
  {
    hide KeyOk, IsParamAt, NoKey;
    if j == "&" {
      var z := SomeKey(l);
      if z == k || Opening(l, z) + |z| < |l| {
        y := z;
      } else {
        y := AnotherKey(l, z);
      }
      if y == k {
        assert |EndValues(l, j, k, "", k)| == 2;
      } else {
        StillOpen(l, y);
        MarkChanges(l, y);
      }
    } else {
      y := SomeKey(kept);
      var s := if j == "?" then l else l[..|l| - 1];
      assert l + j == s + "?" && l + "" == l;
      GluedChanges(s, kept, k, y);
    }
  }

  lemma StillOpen(l: string, y: string)
    requires KeyOk(y) && 0 <= Opening(l, y) && Opening(l, y) + |y| < |l|
    ensures Opening(l + "?", y) >= 0
  {
    hide KeyOk, IsParamAt;
    var m := l + "?";
    assert m[..|l|] == l;
    BeforeMark(m, |l|, y, Opening(l, y));
    NotAtStart(l, y);
  }

  /** Beside a key that is the last word there can only be keys that end before it. */
  lemma AnotherKey(l: string, z: string) returns (y: string)
    requires KeyOk(z) && Opening(l, z) >= 0 && Opening(l, z) + |z| >= |l| && !OnlyBare(l, z)
    ensures KeyOk(y) && 0 <= Opening(l, y) && Opening(l, y) + |y| < |l|
  {
    hide KeyOk, IsParamAt;
    ParamInside(l, z, Opening(l, z));
    var i: nat;
    y, i :| KeyOk(y) && IsParamAt(l, y, i) && y != z;
    NotAtStart(l, y);
    NotAtStart(l, z);
    var p, q := Opening(l, z), Opening(l, y);
    if p == q {
      SamePosition(l, y, z, p);
    } else if p < q {
      Apart(l, z, p, y, q);
    } else {
      Apart(l, y, q, z, p);
    }
  }

  lemma Apart(l: string, x: string, p: nat, y: string, q: nat)
    requires KeyOk(x) && IsParamAt(l, x, p) && IsParamAt(l, y, q) && p < q
    ensures p + |x| < q <= |l|
  {
    KeyHasNoDelimiter(l, x, p);
  }

  // ----- setting the key

  /** No other key stands before k in its piece; the end adds at most an empty value; and the
      pieces without k have all values of the other keys but those the end adds. */
  ghost predicate KeyKept(u: string, j: string, k: string) {
    var ps, qs := PiecesOf(u), LeftOf(u, k);
    var l, kept := Last(ChopPieces(qs)), KeptEnd(qs);
    && KeyFirst(ps, k) && EndKeeps(l, j, k, kept)
    && forall y :: KeyOk(y) && y != k ==> Values(ps, y) == Values(Without(ps, k), y) + Gain(l, j, kept, y)
  }

  function JointOf(u: string, k: string): string {
    Joint(Text(ChopPieces(LeftOf(u, k))))
  }

  lemma SomeBefore(ps: seq<string>, k: string) returns (n: nat, x: string)
    requires KeyOk(k) && !KeyFirst(ps, k)
    ensures n < |ps| && KeyOk(x) && x != k && 0 < Opening(ps[n], x) < Opening(ps[n], k)
  {
    hide KeyOk, IsParamAt;
    n :| n < |ps| && !KeyFirstIn(ps[n], k);
    var i: nat;
    x, i :| KeyOk(x) && i < Opening(ps[n], k) && IsParamAt(ps[n], x, i);
    NotAtStart(ps[n], x);
    NotAtStart(ps[n], k);
  }

  /** The values before and after, when k comes first in its pieces. */
  lemma ValuesLeft(u: string, k: string, y: string)
    requires KeyOk(k) && KeyOk(y) && KeyFirst(PiecesOf(u), k)
    ensures var ps, qs := PiecesOf(u), LeftOf(u, k);
      var bs := ChopPieces(qs);
      && Values(Without(ps, k), y) == Values(bs[..|bs| - 1], y) + ValueIn(KeptEnd(qs), y)
      && GetParamValues(u, y) == Values(ps, y)
      && (KeptEnd(qs) == Last(bs) || KeptEnd(qs) == Last(bs) + "?")
      && (y == k ==> Values(Without(ps, k), y) == [])
  {
    hide KeyOk, Values, ValueIn, PiecesOf, Left, ChopPieces, KeptEnd, GetParamValues, KeyFirstIn, IsPiece, Text, Kept;
    hide Without;
    var ps := PiecesOf(u);
    LeftOfPieces(u, k);
    assert [ps[0]] + ps[1..] == ps && KeyFirst(ps[1..], k);
    LeftValues(ps[0], ps[1..], k, y);
    KeptEndValues(LeftOf(u, k), y);
    GetReads(u, y);
    KeyIsGone(ps, k);
  }

  lemma SetValues(u: string, k: string, v: string, y: string)
    requires KeyOk(k) && KeyOk(y) && Free(v)
    ensures var bs := ChopPieces(LeftOf(u, k));
      GetParamValues(SetParam(u, k, v), y) ==
        Values(bs[..|bs| - 1], y) + EndValues(Last(bs), JointOf(u, k), k, v, y)
  {
    hide KeyOk, Free, Values, PiecesOf, LeftOf, ChopPieces, Joint, EndValues, SetParam, GetParamValues, Text, Added;
    SetPieces(u, k, v);
    GetReads(SetParam(u, k, v), y);
    ValuesAdded(ChopPieces(LeftOf(u, k)), k, v, y);
  }

  lemma EndShape(u: string, k: string)
    requires KeyOk(k)
    ensures var j, l := JointOf(u, k), Last(ChopPieces(LeftOf(u, k)));
      j == "&" || j == "?" || (j == "" && EndsWithMark(l))
  {
    hide KeyOk, LeftOf, ChopPieces, Text, MarkInside;
    var bs := ChopPieces(LeftOf(u, k));
    LeftOfPieces(u, k);
    ChopsText(LeftOf(u, k));
    JointIs(Text(bs));
    if Joint(Text(bs)) == "" {
      MarkOfLast(bs);
    }
  }

  lemma PrefixCancels(a: seq<string>, b: seq<string>, c: seq<string>)
    ensures a + b == a + c <==> b == c
  {
    assert (a + b)[|a|..] == b && (a + c)[|a|..] == c;
  }

  /** What an end that keeps gives. */
  lemma EndGives(l: string, j: string, k: string, kept: string, v: string, y: string)
    requires KeyOk(k) && KeyOk(y) && y != k && Free(v) && (kept == l || kept == l + "?") && ValueIn(kept, k) == []
    requires j == "&" || j == "?" || (j == "" && EndsWithMark(l))
    requires EndKeeps(l, j, k, kept)
    ensures EndValues(l, j, k, v, k) == [v]
    ensures EndValues(l, j, k, v, y) == ValueIn(kept, y) + Gain(l, j, kept, y)
  {
    hide KeyOk, Free, EndValues, ValueIn, OnlyBare, EndsWithMark;
    if j == "&" {
      InsideKeeps(l, k, kept, v, y);
    } else {
      GluedNoKey(l, j, k, kept);
      GluedKeeps(l, j, k, kept, v, k);
      GluedKeeps(l, j, k, kept, v, y);
    }
  }

  lemma Regrouped(a: seq<string>, b: seq<string>, c: seq<string>)
    ensures a + (b + c) == a + b + c && [] + a == a
  {
  }

  /** With an end that keeps, the law is a matter of the values lost and gained. */
  lemma LawWhereEndKeeps(u: string, k: string, v: string, y: string)
    requires KeyOk(k) && KeyOk(y) && y != k && Free(v) && KeyFirst(PiecesOf(u), k)
    requires EndKeeps(Last(ChopPieces(LeftOf(u, k))), JointOf(u, k), k, KeptEnd(LeftOf(u, k)))
    ensures var ps, qs := PiecesOf(u), LeftOf(u, k);
      Law(u, k, v, y) <==>
        Values(ps, y) == Values(Without(ps, k), y) + Gain(Last(ChopPieces(qs)), JointOf(u, k), KeptEnd(qs), y)
  {
    hide KeyOk, Free, Values, ValueIn, PiecesOf, LeftOf, ChopPieces, KeptEnd, EndValues, SetParam, GetParamValues, Without;
    hide JointOf, KeyFirst, EndKeeps, Gain, EndsWithMark;
    var bs := ChopPieces(LeftOf(u, k));
    var l, j, kept := Last(bs), JointOf(u, k), KeptEnd(LeftOf(u, k));
    ValuesLeft(u, k, k);
    ValuesLeft(u, k, y);
    SetValues(u, k, v, k);
    SetValues(u, k, v, y);
    EndShape(u, k);
    NothingLeft(Values(bs[..|bs| - 1], k), ValueIn(kept, k));
    EndGives(l, j, k, kept, v, y);
    Regrouped(Values(bs[..|bs| - 1], y), ValueIn(kept, y), Gain(l, j, kept, y));
    Regrouped([v], [], []);
  }

  lemma NothingLeft(a: seq<string>, b: seq<string>)
    ensures a + b == [] <==> a == [] && b == []
  {
  }

  lemma GluedNoKey(l: string, j: string, k: string, kept: string)
    requires j != "&" && EndKeeps(l, j, k, kept)
    ensures NoKey(kept)
  {
  }

  lemma BreaksWhereEndBreaks(u: string, k: string)
    requires KeyOk(k) && KeyFirst(PiecesOf(u), k)
    requires !EndKeeps(Last(ChopPieces(LeftOf(u, k))), JointOf(u, k), k, KeptEnd(LeftOf(u, k)))
    ensures !LawFor(u, k)
  {
    var ps, qs := PiecesOf(u), LeftOf(u, k);
    var bs := ChopPieces(qs);
    var l, j, kept := Last(bs), JointOf(u, k), KeptEnd(qs);
    ValuesLeft(u, k, k);
    EndShape(u, k);
    EmptyIsFree();
    var y := EndBreaks(l, j, k, kept);
    SetValues(u, k, "", k);
    SetValues(u, k, "", y);
    ValuesLeft(u, k, y);
    ValuesWithout(ps, k, y);
    PrefixCancels(Values(bs[..|bs| - 1], y), EndValues(l, j, k, "", y), ValueIn(kept, y));
    var x := OtherKey(k);
    hide KeyOk, Free, Values, ValueIn, PiecesOf, LeftOf, ChopPieces, KeptEnd, EndValues, SetParam, GetParamValues, Without;
    hide JointOf, KeyFirst, EndKeeps;
    if y == k {
      assert !Law(u, k, "", x);
    } else {
      assert !Law(u, k, "", y);
    }
  }

  /** For one key, on every URL: the law of `setParam` holds for all values and other keys exactly
      when the URL keeps the key in this sense. */
  lemma KeyLawExactly(u: string, k: string)
    requires KeyOk(k)
    ensures LawFor(u, k) <==> KeyKept(u, JointOf(u, k), k)
  {
    hide KeyOk, Free, Law, PiecesOf, LeftOf, ChopPieces, KeptEnd, KeyFirst, EndKeeps, Gain, JointOf, Values, Without;
    if !KeyFirst(PiecesOf(u), k) {
      var n, x := SomeBefore(PiecesOf(u), k);
      EarlierKeyBreaks(u, n, x, k);
    } else if !EndKeeps(Last(ChopPieces(LeftOf(u, k))), JointOf(u, k), k, KeptEnd(LeftOf(u, k))) {
      BreaksWhereEndBreaks(u, k);
    } else {
      EmptyIsFree();
      forall v, y | Free(v) && KeyOk(y) && y != k
        ensures Law(u, k, v, y) <==>
          Values(PiecesOf(u), y) == Values(Without(PiecesOf(u), k), y)
            + Gain(Last(ChopPieces(LeftOf(u, k))), JointOf(u, k), KeptEnd(LeftOf(u, k)), y)
      {
        LawWhereEndKeeps(u, k, v, y);
      }
    }
  }

  // ----- removing the key

  /** After `removeParam` the key has no value, and another key the values it had. */
  ghost predicate RemoveLaw(u: string, k: string)
    requires KeyOk(k)
  {
    forall y :: KeyOk(y) ==> GetParamValues(RemoveParam(u, k), y) == if y == k then [] else GetParamValues(u, y)
  }

  lemma RemovedValues(u: string, k: string, y: string)
    requires KeyOk(k) && KeyOk(y)
    ensures var bs := ChopPieces(LeftOf(u, k));
      GetParamValues(RemoveParam(u, k), y) == Values(bs[..|bs| - 1], y) + ValueIn(Last(bs), y)
  {
    hide KeyOk, Values, ValueIn, LeftOf, ChopPieces, RemoveParam, GetParamValues;
    ReadsRemoved(u, k, y);
    ValuesOfLast(ChopPieces(LeftOf(u, k)), y);
  }

  /** A parameter held in the value of another key stays with it. */
  lemma EarlierKeyHolds(u: string, n: nat, x: string, k: string)
    requires n < |PiecesOf(u)| && KeyOk(x) && KeyOk(k) && x != k
    requires 0 < Opening(PiecesOf(u)[n], x) < Opening(PiecesOf(u)[n], k)
    ensures !RemoveLaw(u, k)
  {
    hide KeyOk, IsParamAt, PiecesOf, RemoveParam, GetParamValues, LeftOf, ChopPieces, IsPiece, Values, ValueAt;
    var ps, bs := PiecesOf(u), ChopPieces(LeftOf(u, k));
    WholeShape(u, "");
    AllPieces(ps);
    LeftOfPieces(u, k);
    ChopsText(LeftOf(u, k));
    AllPieces(bs);
    ReadsRemoved(u, k, k);
    ReadsRemoved(u, k, x);
    GetReads(u, x);
    if RemoveLaw(u, k) {
      var s := ps[n];
      var p, j := Opening(s, x), Opening(s, k);
      Listed(ps, n, x);
      var i := Lister(bs, x, ValueAt(s, x, p));
      var p' := Opening(bs[i], x);
      ParamFits(bs[i], x, p');
      InSameValue(s, p, bs[i], p', x, k, j);
      NotAtStart(bs[i], k);
      Listed(bs, i, k);
      assert false;
    }
  }

  /** The values before and after, when k comes first in its pieces. */
  lemma ValuesRemoved(u: string, k: string, y: string)
    requires KeyOk(k) && KeyOk(y) && KeyFirst(PiecesOf(u), k)
    ensures var ps, qs := PiecesOf(u), LeftOf(u, k);
      var bs := ChopPieces(qs);
      var a, l, kept := Values(bs[..|bs| - 1], y), Last(bs), KeptEnd(qs);
      && GetParamValues(RemoveParam(u, k), y) == a + ValueIn(l, y)
      && Values(Without(ps, k), y) == a + ValueIn(kept, y) && GetParamValues(u, y) == Values(ps, y)
      && (kept == l || kept == l + "?") && (y == k ==> a == [] && ValueIn(kept, y) == [])
  {
    hide KeyOk, Values, ValueIn, PiecesOf, LeftOf, ChopPieces, KeptEnd, RemoveParam, GetParamValues, Without, KeyFirst;
    RemovedValues(u, k, y);
    ValuesLeft(u, k, y);
    var bs := ChopPieces(LeftOf(u, k));
    NothingLeft(Values(bs[..|bs| - 1], y), ValueIn(KeptEnd(LeftOf(u, k)), y));
  }

  lemma RemovedWhereEndKeeps(u: string, k: string, y: string)
    requires KeyOk(k) && KeyOk(y) && KeyFirst(PiecesOf(u), k)
    requires EndKeeps(Last(ChopPieces(LeftOf(u, k))), "&", k, KeptEnd(LeftOf(u, k)))
    ensures var ps, qs := PiecesOf(u), LeftOf(u, k);
      GetParamValues(RemoveParam(u, k), y) ==
        if y == k then [] else Values(Without(ps, k), y) + Gain(Last(ChopPieces(qs)), "&", KeptEnd(qs), y)
  {
    hide KeyOk, Values, ValueIn, PiecesOf, LeftOf, ChopPieces, KeptEnd, RemoveParam, GetParamValues, Without, KeyFirst;
    hide EndKeeps, Gain;
    var bs := ChopPieces(LeftOf(u, k));
    var l, kept := Last(bs), KeptEnd(LeftOf(u, k));
    ValuesRemoved(u, k, k);
    ValuesRemoved(u, k, y);
    InsideKeeps(l, k, kept, "", y);
    OneIsNone(ValueIn(l, k));
    Regrouped(Values(bs[..|bs| - 1], y), ValueIn(kept, y), Gain(l, "&", kept, y));
    Regrouped(ValueIn(l, y), [], []);
    NothingLeft(ValueIn(l, y), []);
  }

  lemma OneIsNone(a: seq<string>)
    ensures a + [""] == [""] ==> a == []
  {
    assert |a + [""]| == |a| + 1;
  }

  /** The same limits for removing, where nothing is glued to the end. */
  lemma RemoveExactly(u: string, k: string)
    requires KeyOk(k)
    ensures RemoveLaw(u, k) <==> KeyKept(u, "&", k)
  {
    hide KeyOk, Values, ValueIn, PiecesOf, LeftOf, ChopPieces, KeptEnd, RemoveParam, GetParamValues, Without, KeyFirst;
    hide EndKeeps, Gain;
    var ps, qs := PiecesOf(u), LeftOf(u, k);
    var bs := ChopPieces(qs);
    var l, kept := Last(bs), KeptEnd(qs);
    if !KeyFirst(ps, k) {
      var n, x := SomeBefore(ps, k);
      EarlierKeyHolds(u, n, x, k);
    } else if EndKeeps(l, "&", k, kept) {
      forall y | KeyOk(y)
        ensures GetParamValues(u, y) == Values(ps, y)
        ensures GetParamValues(RemoveParam(u, k), y) ==
          if y == k then [] else Values(Without(ps, k), y) + Gain(l, "&", kept, y)
      {
        ValuesRemoved(u, k, y);
        RemovedWhereEndKeeps(u, k, y);
      }
    } else {
      ValuesRemoved(u, k, k);
      var y := EndBreaks(l, "&", k, kept);
      ValuesRemoved(u, k, y);
      ValuesWithout(ps, k, y);
      RemoveBreaks(u, k, y, Values(bs[..|bs| - 1], y), l, kept);
    }
  }

  lemma RemoveBreaks(u: string, k: string, y: string, a: seq<string>, l: string, kept: string)
    requires KeyOk(k) && KeyOk(y) && Changed(l, "&", k, kept, y)
    requires GetParamValues(RemoveParam(u, k), y) == a + ValueIn(l, y)
    requires |a + ValueIn(kept, y)| <= |GetParamValues(u, y)|
    requires |a + ValueIn(kept, y)| == |GetParamValues(u, y)| ==> a + ValueIn(kept, y) == GetParamValues(u, y)
    ensures !RemoveLaw(u, k)
  {
    hide KeyOk, ValueIn, RemoveParam, GetParamValues;
    PrefixCancels(a, ValueIn(l, y), ValueIn(kept, y));
    if y == k {
      assert [] + [""] == [""];
    } else {
      assert ValueIn(l, y) + [] == ValueIn(l, y);
    }
  }
}
