/** Exactly which URLs `setParam` treats as it should. */
module UriSetParamExact {
  import opened UriParams
  import opened UriPieces
  import opened UriEdits
  import opened UriSetParam

  // ----- the end of a URL whose pieces have one key each

  lemma EndLawInside(l: string, k: string, kept: string)
    requires KeyOk(k) && (kept == l || kept == l + "?") && ValueIn(kept, k) == []
    ensures EndLaw(l, "&", k, kept) <==> kept == l || NoKey(l)
  {
    hide KeyOk, Free, NoKey, ValueIn;
    if kept != l {
      if NoKey(l) {
        MarkAddsNone(l);
        forall y | KeyOk(y) ensures ValueIn(l, y) == [] && ValueIn(kept, y) == [] {
          NoKeyNoValue(l, y);
          NoKeyNoValue(kept, y);
        }
      } else {
        var z := SomeKey(l);
        EmptyIsFree();
        if z == k {
          var y := OtherKey(k);
          assert |EndValues(l, "&", k, "", k)| == 2;
        } else {
          MarkChanges(l, z);
          assert EndValues(l, "&", k, "", z) == ValueIn(l, z);
        }
      }
    }
  }

  lemma EmptyIsFree()
    ensures Free("")
  {
  }

  lemma OtherKey(k: string) returns (y: string)
    ensures KeyOk(y) && y != k
  {
    y := if k == "a" then "b" else "a";
  }

  lemma EndLawGlued(l: string, j: string, k: string, kept: string)
    requires KeyOk(k) && (kept == l || kept == l + "?") && ValueIn(kept, k) == []
    requires j == "?" || (j == "" && EndsWithMark(l))
    ensures EndLaw(l, j, k, kept) <==> NoKey(kept)
  {
    hide KeyOk, Free, NoKey, ValueIn, Opening;
    var s := if j == "?" then l else l[..|l| - 1];
    assert l + j == s + "?" && l + "" == l;
    if NoKey(kept) {
      if kept == s {
        MarkAddsNone(s);
      } else if kept != s + "?" {
        SecondMark(l);
      }
      forall v, y | Free(v) && KeyOk(y) ensures EndValues(l, j, k, v, y) == if y == k then [v] else [] {
        NoOpening(s + "?", y);
        GluedValue(s, k, v, y);
      }
      forall y | KeyOk(y) ensures ValueIn(kept, y) == [] {
        NoKeyNoValue(kept, y);
      }
    } else {
      var z := SomeKey(kept);
      EmptyIsFree();
      GluedChanges(s, kept, k, z);
      assert EndValues(l, j, k, "", z) != ValueIn(kept, z);
    }
  }

  lemma NoOpening(s: string, y: string)
    requires KeyOk(y) && NoKey(s)
    ensures Opening(s, y) < 0
  {
    hide KeyOk, IsParamAt;
  }

  lemma GluedChanges(s: string, kept: string, k: string, z: string)
    requires KeyOk(k) && KeyOk(z) && z != k && (kept == s || kept == s + "?" || kept == s + "??")
    requires Opening(kept, z) >= 0
    ensures ValueIn(s + "?" + (k + "=" + ""), z) != ValueIn(kept, z)
  {
    hide IsParamAt, Free;
    EmptyIsFree();
    GluedValue(s, k, "", z);
    var m := s + "?";
    var p, p' := Opening(m, z), Opening(kept, z);
    if p >= 0 {
      NonBare(s, z, p);
      assert kept[..|s|] == s == m[..|s|];
      SamePrefix(m, kept, |s|, z, p);
      NotAtStart(m, z);
      NotAtStart(kept, z);
      assert p' <= p;
      SamePrefix(m, kept, |s|, z, p');
      assert p == p';
      ParamFits(kept, z, p);
      assert |ValueAt(m, z, p) + (k + "=" + "")| > |ValueAt(kept, z, p)|;
    }
  }

  // ----- one key, on a URL whose pieces have one key each

  /** What stays of the last piece of a list: a question mark at its end, and not a lone
      ampersand. */
  function KeptEnd(qs: seq<string>): string
    requires qs != []
  {
    if EndsWithMark(Last(qs)) then Last(qs) else Last(ChopPieces(qs))
  }

  lemma KeptEndValues(qs: seq<string>, y: string)
    requires qs != [] && KeyOk(y)
    ensures var bs := ChopPieces(qs);
      && Values(qs, y) == Values(bs[..|bs| - 1], y) + ValueIn(KeptEnd(qs), y)
      && (KeptEnd(qs) == Last(bs) || KeptEnd(qs) == Last(bs) + "?")
      && (KeptEnd(qs) == Last(bs) <==> !EndsWithMark(Last(qs)))
  {
    hide KeyOk, IsParamAt, ValueIn, Values;
    var l, n, bs := Last(qs), |qs| - 1, ChopPieces(qs);
    ValuesOfLast(qs, y);
    NothingIn("&", y);
    NothingIn("", y);
    if EndsWithMark(l) {
      assert bs[..n] == qs[..n];
      assert Last(bs) + "?" == l;
    } else if l == "&" && n > 0 {
      ValuesOfLast(qs[..n], y);
    } else if l == "&" {
      assert qs[..0] == [] && bs[..0] == [];
    }
  }

  lemma NothingIn(s: string, y: string)
    requires KeyOk(y) && |s| <= 1
    ensures ValueIn(s, y) == []
  {
  }

  lemma ReadsOthers(u: string, k: string, y: string)
    requires KeyOk(k) && KeyOk(y) && OneKeyEach(PiecesOf(u))
    ensures Values(LeftOf(u, k), y) == if y == k then [] else GetParamValues(u, y)
  {
    hide KeyOk, Values, ValueIn, PiecesOf, Left, GetParamValues, OneKey, IsPiece, Text, Kept;
    var ps := PiecesOf(u);
    LeftOfPieces(u, k);
    assert [ps[0]] + ps[1..] == ps && OneKeyEach(ps[1..]);
    GetReads(u, y);
    if y == k {
      NoneStays(ps[0], ps[1..], k);
    } else {
      OthersStay(ps[0], ps[1..], k, y);
      ValuesOfFirst(ps[0], ps[1..], y);
    }
  }

  /** For one key, one value and another key the law is a matter of the end. */
  lemma LawIsEndLaw(u: string, k: string, v: string, y: string)
    requires KeyOk(k) && KeyOk(y) && y != k && Free(v) && OneKeyEach(PiecesOf(u))
    ensures var qs := LeftOf(u, k);
      var bs := ChopPieces(qs);
      var l, j := Last(bs), Joint(Text(bs));
      && ValueIn(KeptEnd(qs), k) == []
      && (Law(u, k, v, y) <==>
        EndValues(l, j, k, v, k) == [v] && EndValues(l, j, k, v, y) == ValueIn(KeptEnd(qs), y))
  {
    hide KeyOk, Free, ValueIn, Values, ChopPieces, KeptEnd, Joint, EndValues, PiecesOf, LeftOf, SetParam;
    hide GetParamValues, Text, Added, OneKeyEach, IsPiece, AreNext, Kept;
    var qs := LeftOf(u, k);
    var bs := ChopPieces(qs);
    var u' := SetParam(u, k, v);
    LeftOfPieces(u, k);
    SetPieces(u, k, v);
    GetReads(u', k);
    GetReads(u', y);
    ReadsOthers(u, k, k);
    ReadsOthers(u, k, y);
    ValuesAdded(bs, k, v, k);
    ValuesAdded(bs, k, v, y);
    KeptEndValues(qs, k);
    KeptEndValues(qs, y);
    var a, e, e' := Values(bs[..|bs| - 1], y), EndValues(Last(bs), Joint(Text(bs)), k, v, y), ValueIn(KeptEnd(qs), y);
    assert (a + e)[|a|..] == e && (a + e')[|a|..] == e';
    assert [] + EndValues(Last(bs), Joint(Text(bs)), k, v, k) == EndValues(Last(bs), Joint(Text(bs)), k, v, k);
  }

  /** On a URL whose pieces have one key each, the law holds for a key exactly when the pieces
      left without it have a clean end. */
  lemma LawForExactly(u: string, k: string)
    requires KeyOk(k) && OneKeyEach(PiecesOf(u))
    ensures LawFor(u, k) <==> CleanEnd(LeftOf(u, k))
  {
    hide KeyOk, Free, ValueIn, Law, PiecesOf, OneKeyEach, NoKey, EndValues, Text, LeftOf, MarkInside;
    var qs := LeftOf(u, k);
    var bs := ChopPieces(qs);
    var l, j := Last(bs), Joint(Text(bs));
    forall v, y | Free(v) && KeyOk(y) && y != k
      ensures Law(u, k, v, y) <==>
        EndValues(l, j, k, v, k) == [v] && EndValues(l, j, k, v, y) == ValueIn(KeptEnd(qs), y)
    {
      LawIsEndLaw(u, k, v, y);
    }
    var y := OtherKey(k);
    EmptyIsFree();
    LawIsEndLaw(u, k, "", y);
    KeptEndValues(qs, k);
    JointIs(Text(bs));
    assert LawFor(u, k) <==> EndLaw(l, j, k, KeptEnd(qs));
    if j == "&" {
      EndLawInside(l, k, KeptEnd(qs));
    } else {
      if j == "" {
        LeftOfPieces(u, k);
        ChopsText(qs);
        MarkOfLast(bs);
      }
      EndLawGlued(l, j, k, KeptEnd(qs));
    }
  }

  lemma MarkOfLast(bs: seq<string>)
    requires ArePieces(bs) && Joint(Text(bs)) == ""
    ensures EndsWithMark(Last(bs))
  {
    hide Text, AreNext;
    LastIsPiece(bs);
    TextOfLast(bs);
    TextOfNone();
    assert |bs| == 1 ==> bs[..0] == [];
  }

  // ----- two keys in one piece

  lemma SamePosition(s: string, x: string, y: string, i: nat)
    requires KeyOk(x) && KeyOk(y) && IsParamAt(s, x, i) && IsParamAt(s, y, i)
    ensures x == y
  {
    KeyHasNoDelimiter(s, x, i);
    KeyHasNoDelimiter(s, y, i);
    assert s[i..i + |x|] == x && s[i..i + |y|] == y;
  }

  lemma TwoKeys(s: string) returns (x: string, y: string)
    requires !OneKey(s)
    ensures KeyOk(x) && KeyOk(y) && 0 < Opening(s, x) < Opening(s, y)
  {
    hide KeyOk, IsParamAt;
    var i: nat, j: nat;
    x, y, i, j :| KeyOk(x) && KeyOk(y) && IsParamAt(s, x, i) && IsParamAt(s, y, j) && x != y;
    NotAtStart(s, x);
    NotAtStart(s, y);
    if Opening(s, x) == Opening(s, y) {
      SamePosition(s, x, y, Opening(s, x));
    } else if Opening(s, x) > Opening(s, y) {
      x, y := y, x;
    }
  }

  /** A parameter behind another one lies inside its value. */
  lemma LaterIsInValue(s: string, x: string, p: nat, y: string, j: nat)
    requires IsPiece(s) && KeyOk(x) && IsParamAt(s, x, p) && IsParamAt(s, y, j) && p < j
    ensures p + |x| + 1 < j <= |s| && ValueAt(s, x, p) == s[p + |x| + 1..]
  {
    KeyHasNoDelimiter(s, x, p);
    assert j - 1 != p + |x|;
  }

  /** Where the same value stands, the same parameters begin in it. */
  lemma InSameValue(s: string, p: nat, q: string, p': nat, x: string, y: string, j: nat)
    requires IsPiece(s) && KeyOk(x) && IsParamAt(s, x, p) && IsParamAt(s, y, j) && p < j
    requires p' + |x| <= |q| && ValueAt(s, x, p) == ValueAt(q, x, p')
    ensures IsParamAt(q, y, p' + (j - p))
  {
    LaterIsInValue(s, x, p, y, j);
    var w, d := ValueAt(s, x, p), p + |x| + 1;
    var d', j' := p' + |x| + 1, p' + (j - p);
    assert w == s[d..] == q[d'..];
    assert forall i :: d <= i < |s| ==> s[i] == w[i - d] == q[i - d + d'];
    assert s[j..j + |y|] == q[j'..j' + |y|];
  }

  /** In a piece with two keys no value of the later one is longer than the value of the other
      and free of delimiters. */
  lemma NotLongValue(q: string, x: string, p: nat, y: string, v: string)
    requires IsPiece(q) && KeyOk(x) && KeyOk(y) && x != y && IsParamAt(q, x, p) && Opening(q, y) >= 0
    requires |ValueAt(q, x, p)| < |v| && Free(v)
    ensures ValueIn(q, y) != [v]
  {
    var p' := Opening(q, y);
    if p' == p {
      SamePosition(q, x, y, p);
    } else if p' > p {
      LaterIsInValue(q, x, p, y, p');
    } else {
      LaterIsInValue(q, y, p', x, p);
      assert ValueAt(q, y, p')[p - 1 - (p' + |y| + 1)] == q[p - 1];
    }
  }

  lemma {:induction false} Listed(ps: seq<string>, i: nat, x: string)
    requires i < |ps| && Opening(ps[i], x) >= 0
    ensures ValueAt(ps[i], x, Opening(ps[i], x)) in Values(ps, x)
  {
    hide Opening, ValueAt;
    if i > 0 {
      Listed(ps[1..], i - 1, x);
    }
  }

  lemma {:induction false} Lister(ps: seq<string>, x: string, w: string) returns (i: nat)
    requires w in Values(ps, x)
    ensures i < |ps| && Opening(ps[i], x) >= 0 && ValueAt(ps[i], x, Opening(ps[i], x)) == w
  {
    hide Opening, ValueAt;
    if w in ValueIn(ps[0], x) {
      i := 0;
    } else {
      i := Lister(ps[1..], x, w);
      i := i + 1;
    }
  }

  lemma AllPieces(ps: seq<string>)
    requires ArePieces(ps)
    ensures forall i :: 0 <= i < |ps| ==> IsPiece(ps[i])
  {
    hide IsPiece;
    forall i | 0 <= i < |ps| ensures IsPiece(ps[i]) {
      if i > 0 {
        assert IsNext(ps[1..][i - 1]);
      }
    }
  }

  function Repeat(c: char, n: nat): (s: string)
    ensures |s| == n && forall i :: 0 <= i < n ==> s[i] == c
  {
    if n == 0 then "" else [c] + Repeat(c, n - 1)
  }

  /** Where the values of one key are as before and hold a parameter of the other, this other key
      has a value besides the new one. */
  lemma HeldParamStays(ps: seq<string>, qs: seq<string>, n: nat, x: string, y: string, v: string)
    requires n < |ps| && IsPiece(ps[n]) && ArePieces(qs) && KeyOk(x) && KeyOk(y) && Free(v) && |ps[n]| < |v|
    requires 0 < Opening(ps[n], x) < Opening(ps[n], y) && Values(qs, x) == Values(ps, x)
    ensures Values(qs, y) != [v]
  {
    hide KeyOk, Free, IsPiece, IsParamAt, Values, ValueAt;
    var s := ps[n];
    var p, j := Opening(s, x), Opening(s, y);
    Listed(ps, n, x);
    var i := Lister(qs, x, ValueAt(s, x, p));
    AllPieces(qs);
    var q := qs[i];
    var p' := Opening(q, x);
    ParamFits(q, x, p');
    InSameValue(s, p, q, p', x, y, j);
    NotAtStart(q, y);
    ShortValue(s, x, p);
    assert x != y;
    NotLongValue(q, x, p', y, v);
    Listed(qs, i, y);
  }

  lemma ShortValue(s: string, x: string, p: nat)
    ensures |ValueAt(s, x, p)| <= |s|
  {
  }

  /** Setting a key behind another one in the same piece loses a value or leaves one too many. */
  lemma EarlierKeyBreaks(u: string, n: nat, x: string, k: string)
    requires n < |PiecesOf(u)| && KeyOk(x) && KeyOk(k) && x != k
    requires 0 < Opening(PiecesOf(u)[n], x) < Opening(PiecesOf(u)[n], k)
    ensures !LawFor(u, k)
  {
    hide KeyOk, IsParamAt, PiecesOf, SetParam, GetParamValues, LeftOf, ChopPieces, Added, IsPiece;
    hide Opening, Values;
    var ps := PiecesOf(u);
    WholeShape(u, "");
    AllPieces(ps);
    var v := Repeat('x', |ps[n]| + 1);
    assert Free(v);
    SetPieces(u, k, v);
    ChopsText(LeftOf(u, k));
    FreeParam(k, v);
    AddedText(ChopPieces(LeftOf(u, k)), k + "=" + v);
    GetReads(SetParam(u, k, v), k);
    GetReads(SetParam(u, k, v), x);
    GetReads(u, x);
    if Law(u, k, v, x) {
      HeldParamStays(ps, PiecesOf(SetParam(u, k, v)), n, x, k, v);
      assert false;
    }
  }

  /** When a piece has two keys, the law fails for the later one. */
  lemma TwoKeysBreak(u: string) returns (k: string)
    requires !OneKeyEach(PiecesOf(u))
    ensures KeyOk(k) && !LawFor(u, k)
  {
    hide KeyOk, OneKey, PiecesOf, LawFor, Opening;
    var n: nat :| n < |PiecesOf(u)| && !OneKey(PiecesOf(u)[n]);
    var x;
    x, k := TwoKeys(PiecesOf(u)[n]);
    EarlierKeyBreaks(u, n, x, k);
  }

  // ----- the limits

  /** Every piece has one key, and the pieces have a clean end, as have the pieces left without a
      key that the URL holds. */
  ghost predicate Orderly(u: string) {
    && OneKeyEach(PiecesOf(u)) && CleanEnd(PiecesOf(u))
    && forall k :: KeyOk(k) && Values(PiecesOf(u), k) != [] ==> CleanEnd(LeftOf(u, k))
  }

  lemma {:induction false} LeftOfUnused(s: string, rest: seq<string>, k: string)
    requires Values([s] + rest, k) == []
    ensures Left(s, rest, k) == [s] + rest
    decreases |rest|
  {
    hide IsParamAt, Values, ValueAt, Opening;
    ValuesOfFirst(s, rest, k);
    if rest == [] {
      assert [s] + [] == [s];
    } else {
      assert [rest[0]] + rest[1..] == rest;
      LeftOfUnused(rest[0], rest[1..], k);
    }
  }

  lemma {:induction false} PieceFits(ps: seq<string>, i: nat)
    requires i < |ps|
    ensures |ps[i]| <= |Text(ps)|
  {
    if i > 0 {
      PieceFits(ps[1..], i - 1);
    }
  }

  lemma UnusedKey(u: string) returns (k: string)
    ensures KeyOk(k) && Values(PiecesOf(u), k) == []
  {
    hide PiecesOf, Values, Text;
    var ps := PiecesOf(u);
    k := Repeat('k', |Text(ps)| + 1);
    forall i: nat | i < |ps| ensures ValueIn(ps[i], k) == [] {
      PieceFits(ps, i);
    }
    NoValues(ps, k);
  }

  /** The law of `setParam` holds on a URL for all keys and values exactly when the URL is
      orderly. */
  lemma UrlLawExactly(u: string)
    ensures (forall k :: KeyOk(k) ==> LawFor(u, k)) <==> Orderly(u)
  {
    hide KeyOk, LawFor, OneKeyEach, CleanEnd, PiecesOf, Left, Values;
    var ps := PiecesOf(u);
    assert [ps[0]] + ps[1..] == ps;
    if OneKeyEach(ps) {
      forall k | KeyOk(k) ensures LawFor(u, k) <==> CleanEnd(LeftOf(u, k)) {
        LawForExactly(u, k);
      }
      forall k | Values(ps, k) == [] ensures LeftOf(u, k) == ps {
        LeftOfUnused(ps[0], ps[1..], k);
      }
      var k := UnusedKey(u);
    } else {
      var k := TwoKeysBreak(u);
    }
  }

  lemma ReadsRemoved(u: string, k: string, y: string)
    requires KeyOk(k) && KeyOk(y)
    ensures GetParamValues(RemoveParam(u, k), y) == Values(ChopPieces(LeftOf(u, k)), y)
  {
    hide KeyOk, Values, PiecesOf, LeftOf, RemoveParam, GetParamValues, ChopPieces, Text, AreNext, IsPiece;
    var f := RemoveText(u, k);
    ChopsText(LeftOf(u, k));
    PiecesBefore(ChopPieces(LeftOf(u, k)), f);
    GetReads(RemoveParam(u, k), y);
  }

  /** `appendParam` adds its value to the values of its key and changes no other. */
  ghost predicate AppendLaw(u: string, k: string)
    requires KeyOk(k)
  {
    forall v, y :: Free(v) && KeyOk(y) ==>
      GetParamValues(AppendParam(u, k, v), y) == GetParamValues(u, y) + if y == k then [v] else []
  }

  /** It does so exactly when there is a question mark before the last character, or the last
      piece opens no key. */
  lemma AppendExactly(u: string, k: string)
    requires KeyOk(k)
    ensures AppendLaw(u, k) <==> MarkInside(u[..HashOrEnd(u)]) || NoKey(Last(PiecesOf(u)))
  {
    hide KeyOk, Free, ValueIn, Values, PiecesOf, NoKey, Text, MarkInside, HashOrEnd, GetParamValues, AppendParam;
    hide IsPiece, AreNext, Shape, Quiet;
    WholeShape(u, k);
    var ps, f := PiecesOf(u), u[HashOrEnd(u)..];
    var n, l, j := |ps| - 1, Last(ps), Joint(Text(ps));
    forall v, y | Free(v) && KeyOk(y)
      ensures GetParamValues(AppendParam(u, k, v), y) == Values(ps[..n], y) + EndValues(l, j, k, v, y)
      ensures GetParamValues(u, y) == Values(ps[..n], y) + ValueIn(l, y)
    {
      AppendPieces(ps, f, k, v);
      GetReads(AppendParam(u, k, v), y);
      GetReads(u, y);
      ValuesAdded(ps, k, v, y);
      ValuesOfLast(ps, y);
    }
    JointIs(Text(ps));
    if j == "&" {
    } else if NoKey(l) {
      if j == "" {
        MarkOfLast(ps);
      }
      forall v, y | Free(v) && KeyOk(y) ensures EndValues(l, j, k, v, y) == ValueIn(l, y) + if y == k then [v] else [] {
        GluedGives(l, j, k, v, y);
      }
    } else {
      if j == "" {
        MarkOfLast(ps);
      }
      var z := SomeKey(l);
      EmptyIsFree();
      GluedLoses(l, j, k, z);
      var a, b, c := Values(ps[..n], z), EndValues(l, j, k, "", z), ValueIn(l, z) + if z == k then [""] else [];
      assert (a + b)[|a|..] == b && (a + c)[|a|..] == c;
    }
  }

  lemma GluedGives(l: string, j: string, k: string, v: string, y: string)
    requires KeyOk(k) && KeyOk(y) && Free(v) && NoKey(l) && (j == "?" || (j == "" && EndsWithMark(l)))
    ensures EndValues(l, j, k, v, y) == ValueIn(l, y) + if y == k then [v] else []
  {
    hide KeyOk, Free, NoKey, ValueIn, Opening;
    var s := if j == "?" then l else l[..|l| - 1];
    assert l + j == s + "?" && l + "" == l;
    if j == "?" {
      MarkAddsNone(l);
    }
    NoOpening(s + "?", y);
    NoKeyNoValue(l, y);
    GluedValue(s, k, v, y);
  }

  lemma GluedLoses(l: string, j: string, k: string, z: string)
    requires KeyOk(k) && KeyOk(z) && Opening(l, z) >= 0 && (j == "?" || (j == "" && EndsWithMark(l)))
    ensures EndValues(l, j, k, "", z) != ValueIn(l, z) + if z == k then [""] else []
  {
    hide KeyOk, Free, Opening;
    var s := if j == "?" then l else l[..|l| - 1];
    assert l + j == s + "?" && l + "" == l;
    if z != k {
      GluedChanges(s, l, k, z);
    }
  }

  // ----- values in code and plain

  function Decoded(values: seq<string>, decode: string -> string): seq<string> {
    if values == [] then [] else [decode(values[0])] + Decoded(values[1..], decode)
  }

  /** The law as a caller sees it. The codec is any pair that decodes what it encodes, into text
      without delimiters. */
  lemma SetParamLaw(
    u: string, k: string, x: string, y: string, encode: string -> string, decode: string -> string)
    requires KeyOk(k) && KeyOk(y) && y != k && OneKeyEach(PiecesOf(u)) && CleanEnd(LeftOf(u, k))
    requires decode(encode(x)) == x && Free(encode(x))
    ensures var u' := SetParam(u, k, encode(x));
      && Decoded(GetParamValues(u', k), decode) == [x]
      && Decoded(GetParamValues(u', y), decode) == Decoded(GetParamValues(u, y), decode)
  {
    hide OneKeyEach, CleanEnd, KeyOk, Free, PiecesOf, LeftOf, SetParam, GetParamValues;
    LawForExactly(u, k);
    assert Law(u, k, encode(x), y);
    assert Decoded([encode(x)], decode) == [x] + Decoded([], decode);
  }
}
