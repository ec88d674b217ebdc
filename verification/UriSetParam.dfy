/** The law of `setParam` on whole URLs, and exactly when it holds. */
module UriSetParam {
  import opened UriParams
  import opened UriPieces
  import opened UriEdits

  /** After `setParam` the key has the one value given, and another key the values it had. */
  predicate Law(u: string, k: string, v: string, y: string)
    requires KeyOk(k) && KeyOk(y)
  {
    var u' := SetParam(u, k, v);
    GetParamValues(u', k) == [v] && GetParamValues(u', y) == GetParamValues(u, y)
  }

  ghost predicate LawFor(u: string, k: string)
    requires KeyOk(k)
  {
    forall v, y :: Free(v) && KeyOk(y) && y != k ==> Law(u, k, v, y)
  }

  ghost predicate NoKey(s: string) {
    forall y, i: nat :: KeyOk(y) ==> !IsParamAt(s, y, i)
  }

  /** All parameters of a piece have the same key. */
  ghost predicate OneKey(s: string) {
    forall y, z, i: nat, j: nat :: KeyOk(y) && KeyOk(z) && IsParamAt(s, y, i) && IsParamAt(s, z, j) ==> y == z
  }

  ghost predicate OneKeyEach(ps: seq<string>) {
    forall i :: 0 <= i < |ps| ==> OneKey(ps[i])
  }

  /** The pieces left may be cut at their end and take a parameter: when a question mark is cut
      off, what precedes it in its piece must open no key, and when the parameter is glued to the
      last piece, that piece must open none. */
  ghost predicate CleanEnd(qs: seq<string>)
    requires qs != []
  {
    var bs, l := ChopPieces(qs), Last(qs);
    if MarkInside(Text(bs)) then EndsWithMark(l) ==> NoKey(Last(bs))
    else NoKey(if EndsWithMark(l) then l else Last(bs))
  }

  // ----- values of lists of pieces

  lemma {:induction false} ValuesOfConcat(a: seq<string>, b: seq<string>, k: string)
    ensures Values(a + b, k) == Values(a, k) + Values(b, k)
  {
    hide ValueIn;
    if a == [] {
      assert a + b == b;
    } else {
      ValuesOfConcat(a[1..], b, k);
      assert (a + b)[1..] == a[1..] + b;
      var first := ValueIn(a[0], k);
      assert first + (Values(a[1..], k) + Values(b, k)) == first + Values(a[1..], k) + Values(b, k);
    }
  }

  lemma ValuesOfOne(s: string, k: string)
    ensures Values([s], k) == ValueIn(s, k)
  {
    hide ValueIn;
    assert [s][1..] == [];
  }

  lemma ValuesOfLast(qs: seq<string>, k: string)
    requires qs != []
    ensures Values(qs, k) == Values(qs[..|qs| - 1], k) + ValueIn(Last(qs), k)
  {
    hide ValueIn;
    var n := |qs| - 1;
    ValuesOfConcat(qs[..n], [Last(qs)], k);
    ValuesOfOne(Last(qs), k);
    assert qs == qs[..n] + [Last(qs)];
  }

  lemma ValuesOfFirst(s: string, more: seq<string>, k: string)
    ensures Values([s] + more, k) == ValueIn(s, k) + Values(more, k)
  {
    hide ValueIn;
    assert ([s] + more)[1..] == more;
  }

  lemma {:induction false} NoValues(ps: seq<string>, k: string)
    requires forall i :: 0 <= i < |ps| ==> ValueIn(ps[i], k) == []
    ensures Values(ps, k) == []
  {
    hide ValueIn;
    if ps != [] {
      NoValues(ps[1..], k);
    }
  }

  // ----- removing, on values

  /** The beginning of a piece up to its first parameter with key k opens nothing when the piece
      has no other key. */
  lemma BeginningIsClean(s: string, k: string, y: string)
    requires KeyOk(k) && KeyOk(y) && IsPiece(s) && Opening(s, k) >= 0 && (OneKey(s) || y == k)
    ensures var p := Opening(s, k);
      && 0 < p <= |s| && s[p - 1] in {'&', '?'}
      && (forall j :: 0 < j < p ==> !IsParamAt(s, y, j))
      && ValueIn(s[..p], y) == [] && (y != k ==> ValueIn(s, y) == [])
  {
    hide IsParamAt, KeyOk, IsPiece;
    var p := Opening(s, k);
    ParamInside(s, k, p);
    forall j | 0 < j < p ensures !IsParamAt(s, y, j) {
      assert IsParamAt(s, k, p);
    }
    CutHere(s, p, y);
  }

  lemma CutHere(s: string, p: nat, y: string)
    requires KeyOk(y) && 0 < p <= |s| && s[p - 1] in {'&', '?'} && forall j :: 0 < j < p ==> !IsParamAt(s, y, j)
    ensures ValueIn(s[..p], y) == []
  {
    assert s[..p] + Tail("&") == s[..p];
    JoinedOpening(s, p, "&", y);
  }

  lemma {:induction false} NoneStays(s: string, rest: seq<string>, k: string)
    requires KeyOk(k) && IsPiece(s) && AreNext(rest)
    ensures Values(Left(s, rest, k), k) == []
    decreases |rest|
  {
    hide IsParamAt, Opening, KeyOk, IsPiece, Values, ValueAt;
    var p := Opening(s, k);
    if p < 0 {
      if rest == [] {
        assert [s] + [] == [s];
        ValuesOfOne(s, k);
      } else {
        NoneStays(rest[0], rest[1..], k);
        ValuesOfFirst(s, Left(rest[0], rest[1..], k), k);
      }
    } else {
      BeginningIsClean(s, k, k);
      if rest == [] {
        ValuesOfOne(s[..p], k);
      } else {
        JoinedIsPiece(s, p, rest[0]);
        NoneStays(s[..p] + Tail(rest[0]), rest[1..], k);
      }
    }
  }

  lemma {:induction false} OthersStay(s: string, rest: seq<string>, k: string, y: string)
    requires KeyOk(k) && KeyOk(y) && y != k && IsPiece(s) && AreNext(rest) && OneKey(s) && OneKeyEach(rest)
    ensures Values(Left(s, rest, k), y) == ValueIn(s, y) + Values(rest, y)
    decreases |rest|
  {
    hide IsParamAt, Opening, KeyOk, IsPiece, Values, ValueIn, OneKey;
    var p := Opening(s, k);
    if rest != [] {
      ValuesOfFirst(rest[0], rest[1..], y);
      assert [rest[0]] + rest[1..] == rest;
    }
    if p < 0 {
      if rest == [] {
        assert [s] + [] == [s];
        ValuesOfOne(s, y);
        NoValues([], y);
      } else {
        OthersStay(rest[0], rest[1..], k, y);
        ValuesOfFirst(s, Left(rest[0], rest[1..], k), y);
      }
    } else {
      BeginningIsClean(s, k, y);
      if rest == [] {
        ValuesOfOne(s[..p], y);
        NoValues([], y);
      } else {
        JoinedOpening(s, p, rest[0], y);
        JoinedIsPiece(s, p, rest[0]);
        JoinedHasOneKey(s, k, rest[0]);
        OthersStay(s[..p] + Tail(rest[0]), rest[1..], k, y);
      }
    }
  }

  lemma JoinedHasOneKey(s: string, k: string, r: string)
    requires KeyOk(k) && IsPiece(s) && IsNext(r) && Opening(s, k) >= 0 && OneKey(s) && OneKey(r)
    ensures Opening(s, k) <= |s| && OneKey(s[..Opening(s, k)] + Tail(r))
  {
    hide IsParamAt, KeyOk, IsPiece, Opening;
    var p := Opening(s, k);
    BeginningIsClean(s, k, k);
    var m := s[..p] + Tail(r);
    forall y, j: nat | KeyOk(y) && IsParamAt(m, y, j) ensures p <= j && IsParamAt(r, y, j - p + 1) {
      BeginningIsClean(s, k, y);
      NotAtStart(m, y);
      Joined(s, p, r, y, j);
    }
  }

  // ----- question marks inside a piece

  /** A parameter before a question mark is one of the text up to it that does not end there. */
  lemma BeforeMark(x: string, q: nat, y: string, i: nat)
    requires KeyOk(y) && q < |x| && x[q] == '?' && i <= q
    ensures IsParamAt(x, y, i) <==> IsParamAt(x[..q], y, i) && i + |y| < q
  {
    var s := x[..q];
    assert i + |y| <= q ==> x[i..i + |y|] == s[i..i + |y|];
    if IsParamAt(x, y, i) {
      KeyHasNoDelimiter(x, y, i);
    }
  }

  /** Behind a delimiter with a parameter there is only this parameter. */
  lemma BehindDelimiter(s: string, c: char, k: string, v: string, y: string, i: nat)
    requires KeyOk(k) && KeyOk(y) && Free(v) && c in {'?', '&'} && |s| < i
    ensures IsParamAt(s + [c] + (k + "=" + v), y, i) <==> i == |s| + 1 && y == k
  {
    var x := s + [c] + (k + "=" + v);
    var q := |s| + 1;
    assert forall j :: 0 <= j < |k| ==> x[q + j] == k[j] && x[q + j] !in {'\0', '=', '&', '#'};
    assert x[q + |k|] == '=';
    assert forall j :: q + |k| < j < |x| ==> x[j] == v[j - (q + |k| + 1)];
    assert x[q..q + |k|] == k;
    if IsParamAt(x, y, i) {
      assert i == q;
      KeyHasNoDelimiter(x, y, q);
      assert x[q..q + |y|] == y;
      assert |y| == |k|;
    }
  }

  /** The values of a piece that consists of a text, a question mark and a parameter. */
  lemma GluedValue(s: string, k: string, v: string, y: string)
    requires KeyOk(k) && KeyOk(y) && Free(v)
    ensures var p := Opening(s + "?", y);
      ValueIn(s + "?" + (k + "=" + v), y) ==
        if p >= 0 then [ValueAt(s + "?", y, p) + (k + "=" + v)] else if y == k then [v] else []
  {
    hide IsParamAt, KeyOk, Free;
    var m, kv := s + "?", k + "=" + v;
    var x := m + kv;
    forall i: nat ensures IsParamAt(x, y, i) <==> IsParamAt(m, y, i) || (i == |m| && y == k) {
      if i <= |s| {
        BeforeMark(x, |s|, y, i);
        BeforeMark(m, |s|, y, i);
        assert x[..|s|] == s && m[..|s|] == s;
      } else {
        BehindDelimiter(s, '?', k, v, y, i);
        NotBehindEnd(m, y, i);
      }
    }
    var p := Opening(m, y);
    NotAtStart(x, y);
    if p >= 0 {
      NonBare(s, y, p);
      assert IsParamAt(x, y, p);
      assert Opening(x, y) == p;
      assert x[p + |y| + 1..] == m[p + |y| + 1..] + kv;
    } else if y == k {
      assert IsParamAt(x, y, |m|);
      assert Opening(x, y) == |m|;
      assert x[|m| + |k| + 1..] == v;
    }
  }

  lemma NotBehindEnd(m: string, y: string, i: nat)
    requires KeyOk(y) && |m| <= i
    ensures !IsParamAt(m, y, i)
  {
  }

  lemma NonBare(s: string, y: string, p: nat)
    requires KeyOk(y) && IsParamAt(s + "?", y, p)
    ensures p + |y| < |s|
  {
    var m := s + "?";
    KeyHasNoDelimiter(m, y, p);
    assert m[|s|] == '?';
  }

  lemma AddedValue(k: string, v: string, y: string)
    requires KeyOk(k) && KeyOk(y) && Free(v)
    ensures ValueIn("&" + (k + "=" + v), y) == if y == k then [v] else []
  {
    hide IsParamAt, KeyOk, Free;
    var x := "&" + (k + "=" + v);
    assert "" + "&" + (k + "=" + v) == x;
    NotAtStart(x, y);
    forall i: nat | 0 < i ensures IsParamAt(x, y, i) <==> i == 1 && y == k {
      BehindDelimiter("", '&', k, v, y, i);
    }
    assert x[1 + |k| + 1..] == v;
  }

  /** A key ends at an equals sign or a NUL and at no other character of its piece; the value begins
      behind it. */
  lemma KeyEndsExactly(k: string, c: char, v: string)
    requires KeyOk(k) && c !in {'&', '?', '#'} && Free(v)
    ensures GetParamValues("?" + k + [c] + v, k) == if c == '=' || c == '\0' then [v] else []
  {
    var u := "?" + k + [c] + v;
    var n := 1 + |k|;
    assert u[n] == c && u[n + 1..] == v && u[1..n] == k;
    assert forall j :: 1 <= j < n ==> u[j] == k[j - 1];
    assert forall j :: n < j < |u| ==> u[j] == v[j - n - 1];
    assert forall j :: 0 < j < |u| ==> u[j] !in {'&', '?', '#'};
    OnePiece(u);
    GetReads(u, k);
    ValuesOfOne(u, k);
    forall j: nat ensures IsParamAt(u, k, j) <==> j == 1 && (c == '=' || c == '\0') {
      if IsParamAt(u, k, j) {
        assert j == 1;
      }
    }
    hide KeyOk, Free;
    if c == '=' || c == '\0' {
      assert Opening(u, k) == 1;
    }
  }

  lemma OnePiece(u: string)
    requires IsPiece(u)
    ensures PiecesOf(u) == [u]
  {
    assert Text([u]) == u + Text([]) == u && u + "" == u;
    assert [u][1..] == [];
    PiecesBefore([u], "");
  }

  // ----- the end of the list of pieces

  /** What the end of the list gives for a key once the parameter is there. */
  function EndValues(l: string, j: string, k: string, v: string, y: string): seq<string> {
    if j == "&" then ValueIn(l, y) + (if y == k then [v] else []) else ValueIn(l + j + (k + "=" + v), y)
  }

  lemma ValuesAdded(bs: seq<string>, k: string, v: string, y: string)
    requires bs != [] && KeyOk(k) && KeyOk(y) && Free(v)
    ensures Values(Added(bs, k + "=" + v), y) ==
      Values(bs[..|bs| - 1], y) + EndValues(Last(bs), Joint(Text(bs)), k, v, y)
  {
    hide ValueIn, Joint, Values, Text, KeyOk, Free;
    var j, n, kv := Joint(Text(bs)), |bs| - 1, k + "=" + v;
    if j == "&" {
      ValuesOfConcat(bs, ["&" + kv], y);
      ValuesOfOne("&" + kv, y);
      AddedValue(k, v, y);
      ValuesOfLast(bs, y);
    } else {
      ValuesOfConcat(bs[..n], [Last(bs) + j + kv], y);
      ValuesOfOne(Last(bs) + j + kv, y);
    }
  }

  /** The end of the list keeps the law, whatever key and value are added. */
  ghost predicate EndLaw(l: string, j: string, k: string, kept: string) {
    forall v, y :: Free(v) && KeyOk(y) && y != k ==>
      EndValues(l, j, k, v, k) == [v] && EndValues(l, j, k, v, y) == ValueIn(kept, y)
  }

  lemma NoKeyNoValue(s: string, y: string)
    requires KeyOk(y) && NoKey(s)
    ensures ValueIn(s, y) == []
  {
    hide IsParamAt, KeyOk;
  }

  lemma SomeKey(s: string) returns (y: string)
    requires !NoKey(s)
    ensures KeyOk(y) && Opening(s, y) >= 0 && |ValueIn(s, y)| == 1
  {
    hide IsParamAt, KeyOk;
    var i: nat;
    y, i :| KeyOk(y) && IsParamAt(s, y, i);
    NotAtStart(s, y);
  }

  /** A question mark behind a text takes a parameter away from it or makes its value longer. */
  lemma MarkChanges(s: string, y: string)
    requires KeyOk(y) && Opening(s, y) >= 0
    ensures ValueIn(s + "?", y) != ValueIn(s, y)
  {
    hide IsParamAt, KeyOk;
    var m, p, p' := s + "?", Opening(s, y), Opening(s + "?", y);
    assert m[..|s|] == s;
    NotAtStart(s, y);
    NotAtStart(m, y);
    if p' >= 0 {
      NonBare(s, y, p');
      BeforeMark(m, |s|, y, p');
      assert p <= p';
      ParamFits(s, y, p);
      BeforeMark(m, |s|, y, p);
      assert p == p';
      assert |ValueAt(m, y, p)| > |ValueAt(s, y, p)|;
    }
  }

  /** Without keys a text has none with a question mark behind it. */
  lemma MarkAddsNone(s: string)
    requires NoKey(s)
    ensures NoKey(s + "?")
  {
    hide IsParamAt, KeyOk;
    var m := s + "?";
    assert m[..|s|] == s;
    forall y, i: nat | KeyOk(y) ensures !IsParamAt(m, y, i) {
      if i <= |s| {
        BeforeMark(m, |s|, y, i);
      } else {
        NotBehindEnd(m, y, i);
      }
    }
  }

  /** A text that ends with a question mark opens the keys that it opens with another one. */
  lemma SecondMark(s: string)
    requires EndsWithMark(s) && NoKey(s + "?")
    ensures NoKey(s)
  {
    hide IsParamAt, KeyOk;
    var m := s + "?";
    assert m[..|s|] == s;
    forall y, i: nat | KeyOk(y) ensures !IsParamAt(s, y, i) {
      if IsParamAt(s, y, i) {
        var s' := s[..|s| - 1];
        assert s == s' + "?";
        NonBare(s', y, i);
        BeforeMark(m, |s|, y, i);
      }
    }
  }
}
