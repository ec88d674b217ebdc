/** URLs made of a path, parameters and a fragment, and which values `setParam` leaves alone in
    all of them. */
module UriValues {
  import opened UriParams
  import opened UriPieces
  import opened UriEdits
  import opened UriSetParam
  import opened UriSetParamExact

  predicate AllKeyChars(s: string, i: nat, e: nat)
    requires i <= e <= |s|
  {
    forall j :: i <= j < e ==> s[j] !in {'&', '?', '#', '=', '\0'}
  }

  /** A key begins at i: text without delimiters, up to an equals sign, a NUL or the end. */
  predicate OpensKey(s: string, i: nat) {
    exists e :: i < e <= |s| && AllKeyChars(s, i, e) && (e == |s| || s[e] in {'=', '\0'})
  }

  /** A parameter in which no question mark comes last or before a key. */
  predicate Closed(s: string) {
    && '&' !in s && '#' !in s
    && forall i :: 0 <= i < |s| && s[i] == '?' ==> i + 1 < |s| && !OpensKey(s, i + 1)
  }

  predicate AllClosed(segs: seq<string>) {
    forall i :: 0 <= i < |segs| ==> Closed(segs[i])
  }

  function WithAmpersands(segs: seq<string>): (ps: seq<string>)
    ensures |ps| == |segs|
  {
    if segs == [] then [] else ["&" + segs[0]] + WithAmpersands(segs[1..])
  }

  function UrlPieces(path: string, segs: seq<string>): (ps: seq<string>)
    ensures ps != []
  {
    if segs == [] then [path] else [path + "?" + segs[0]] + WithAmpersands(segs[1..])
  }

  /** A path, the parameters of a query if there is one, and a fragment. */
  function Url(path: string, segs: seq<string>, f: string): string {
    Text(UrlPieces(path, segs)) + f
  }

  // ----- closed parameters

  /** What precedes the parameter in its piece. */
  predicate Opener(pre: string) {
    pre != "" && pre[|pre| - 1] in {'&', '?'} && Free(pre[..|pre| - 1])
  }

  lemma KeyIsOpened(s: string, y: string, i: nat)
    requires KeyOk(y) && IsParamAt(s, y, i) && '&' !in s && '#' !in s
    ensures s[i - 1] == '?' && OpensKey(s, i)
  {
    KeyHasNoDelimiter(s, y, i);
    assert AllKeyChars(s, i, i + |y|);
  }

  /** In a piece made of an opener and a closed parameter keys are only opened at its start. */
  lemma ParamOfClosed(pre: string, seg: string, y: string, i: nat)
    requires Opener(pre) && Closed(seg) && KeyOk(y) && IsParamAt(pre + seg, y, i)
    ensures i == |pre|
  {
    hide OpensKey;
    var s, n := pre + seg, |pre|;
    assert forall j :: 0 <= j < n - 1 ==> s[j] == pre[..n - 1][j];
    if i > n {
      assert seg[i - n..i - n + |y|] == s[i..i + |y|];
      assert IsParamAt(seg, y, i - n);
      KeyIsOpened(seg, y, i - n);
    }
  }

  lemma ClosedHasOneKey(pre: string, seg: string)
    requires Opener(pre) && Closed(seg)
    ensures OneKey(pre + seg)
  {
    hide IsParamAt, KeyOk, Closed, Opener;
    var s := pre + seg;
    forall y, z, i: nat, j: nat | KeyOk(y) && KeyOk(z) && IsParamAt(s, y, i) && IsParamAt(s, z, j) ensures y == z {
      ParamOfClosed(pre, seg, y, i);
      ParamOfClosed(pre, seg, z, j);
      SamePosition(s, y, z, i);
    }
  }

  lemma OpenerHasNoKey(pre: string)
    requires Opener(pre)
    ensures NoKey(pre)
  {
    hide KeyOk, IsParamAt;
    forall y, i: nat | KeyOk(y) ensures !IsParamAt(pre, y, i) {
      if IsParamAt(pre, y, i) {
        assert pre + "" == pre;
        ParamOfClosed(pre, "", y, i);
        NotBehindEnd(pre, y, i);
      }
    }
  }

  lemma PathHasNoKey(path: string)
    requires Free(path)
    ensures NoKey(path)
  {
  }

  // ----- what is left of closed parameters

  lemma WithAmpersandsUnfold(segs: seq<string>)
    requires segs != [] && AllClosed(segs)
    ensures WithAmpersands(segs) == ["&" + segs[0]] + WithAmpersands(segs[1..])
    ensures AllClosed(segs[1..]) && Closed(segs[0]) && IsNext("&" + segs[0]) && Tail("&" + segs[0]) == segs[0]
  {
  }

  lemma {:induction false} AmpersandsAreNext(segs: seq<string>)
    requires AllClosed(segs)
    ensures AreNext(WithAmpersands(segs)) && OneKeyEach(WithAmpersands(segs))
  {
    hide Closed, OneKey, IsPiece;
    if segs != [] {
      WithAmpersandsUnfold(segs);
      AmpersandsAreNext(segs[1..]);
      assert Opener("&");
      ClosedHasOneKey("&", segs[0]);
    }
  }

  lemma OpeningOfClosed(pre: string, seg: string, k: string)
    requires KeyOk(k) && Opener(pre) && Closed(seg)
    ensures var p := Opening(pre + seg, k); p < 0 || p == |pre|
  {
    if Opening(pre + seg, k) >= 0 {
      ParamOfClosed(pre, seg, k, Opening(pre + seg, k));
    }
  }

  /** Removing a key leaves the first opener in its place, and a question mark at the end only
      when it is this opener. */
  lemma {:induction false} ClosedLeft(pre: string, seg: string, segs: seq<string>, k: string)
    requires KeyOk(k) && Opener(pre) && Closed(seg) && AllClosed(segs)
    ensures var qs := Left(pre + seg, WithAmpersands(segs), k);
      pre <= qs[0] && (EndsWithMark(Last(qs)) ==> qs == [pre])
    decreases |segs|
  {
    hide IsParamAt, KeyOk, Closed, Opener, Opening, IsPiece;
    var s, rest := pre + seg, WithAmpersands(segs);
    OpeningOfClosed(pre, seg, k);
    if segs != [] {
      WithAmpersandsUnfold(segs);
      assert rest[1..] == WithAmpersands(segs[1..]);
    }
    if Opening(s, k) < 0 {
      if segs == [] {
        if seg == "" {
          assert pre + "" == pre;
        } else {
          ClosedEnd(pre, seg);
        }
      } else {
        AmpersandOpens();
        ClosedLeft("&", segs[0], segs[1..], k);
      }
    } else {
      assert s[..|pre|] == pre;
      if segs != [] {
        ClosedLeft(pre, segs[0], segs[1..], k);
      }
    }
  }

  lemma AmpersandOpens()
    ensures Opener("&")
  {
  }

  lemma ClosedEnd(pre: string, seg: string)
    requires Closed(seg) && seg != ""
    ensures !EndsWithMark(pre + seg)
  {
  }

  lemma UrlHasPieces(path: string, segs: seq<string>, f: string)
    requires Free(path) && AllClosed(segs) && IsFragment(f)
    ensures PiecesOf(Url(path, segs, f)) == UrlPieces(path, segs) && OneKeyEach(UrlPieces(path, segs))
  {
    hide Closed, OneKey, PiecesOf, Text;
    var ps := UrlPieces(path, segs);
    if segs == [] {
      PathHasNoKey(path);
      assert NoKey(path) ==> OneKey(path) by { NoneIsOne(path); }
    } else {
      AmpersandsAreNext(segs[1..]);
      FirstIsPiece(path, segs[0]);
      ClosedHasOneKey(path + "?", segs[0]);
      assert ps[1..] == WithAmpersands(segs[1..]);
    }
    PiecesBefore(ps, f);
  }

  lemma NoneIsOne(s: string)
    requires NoKey(s)
    ensures OneKey(s)
  {
    hide KeyOk, IsParamAt;
  }

  lemma FirstIsPiece(path: string, seg: string)
    requires Free(path) && Closed(seg)
    ensures IsPiece(path + "?" + seg) && Opener(path + "?")
  {
    assert (path + "?")[..|path|] == path;
  }

  /** Pieces that begin with the path and its question mark and end with no other have a clean
      end. */
  lemma CleanClosed(path: string, qs: seq<string>)
    requires Free(path) && ArePieces(qs) && path + "?" <= qs[0]
    requires EndsWithMark(Last(qs)) ==> qs == [path + "?"]
    ensures CleanEnd(qs)
  {
    hide NoKey, IsPiece, Opener;
    var pre, bs := path + "?", ChopPieces(qs);
    assert Opener(pre) by { FirstIsPiece(path, ""); }
    OpenerHasNoKey(pre);
    ChopsText(qs);
    assert Text(bs) == bs[0] + Text(bs[1..]);
    if |bs| > 1 {
      assert IsNext(bs[1..][0]) && |Text(bs[1..])| > 0;
    }
    if EndsWithMark(Last(qs)) {
      assert bs[1..] == [] && bs[0] == path && path + "" == path;
    } else if !MarkInside(Text(bs)) {
      assert pre[|path|] == '?' && qs[0][|path|] == pre[|path|];
      assert bs[0] == qs[0];
      assert Text(bs)[|path|] == '?';
      assert |Text(bs)| == |pre|;
      assert Last(bs) == pre;
    }
  }

  /** URLs made of a path, closed parameters and a fragment are orderly. */
  lemma ClosedIsOrderly(path: string, segs: seq<string>, f: string)
    requires Free(path) && AllClosed(segs) && IsFragment(f)
    ensures Orderly(Url(path, segs, f))
  {
    hide KeyOk, Closed, OneKeyEach, CleanEnd, PiecesOf, Left, Values, Url, Opener, IsPiece;
    var u := Url(path, segs, f);
    UrlHasPieces(path, segs, f);
    forall k | KeyOk(k) ensures CleanEnd(LeftOf(u, k)) {
      LeftOfPieces(u, k);
      if segs == [] {
        PathStays(path, k);
        CleanPath(path);
      } else {
        FirstIsPiece(path, segs[0]);
        assert UrlPieces(path, segs)[1..] == WithAmpersands(segs[1..]);
        ClosedLeft(path + "?", segs[0], segs[1..], k);
        CleanClosed(path, LeftOf(u, k));
      }
    }
    var k := UnusedKey(u);
    var ps := PiecesOf(u);
    assert [ps[0]] + ps[1..] == ps;
    LeftOfUnused(ps[0], ps[1..], k);
  }

  lemma PathStays(path: string, k: string)
    requires Free(path) && KeyOk(k)
    ensures Left(path, [], k) == [path]
  {
    PathHasNoKey(path);
    NoOpening(path, k);
  }

  lemma CleanPath(path: string)
    requires Free(path)
    ensures CleanEnd([path])
  {
    PathHasNoKey(path);
    assert Text([path]) == path + Text([path][1..]);
  }

  // ----- values

  /** A place for a parameter x with some value in a URL, a call of `setParam` for the key k, and
      another key to look at. */
  datatype Setting = Setting(
    path: string, before: seq<string>, x: string, after: seq<string>, f: string, k: string, v: string, other: string)
  {
    predicate Ok() {
      && KeyOk(x) && KeyOk(k) && KeyOk(other) && k != other
      && Free(path) && AllClosed(before) && AllClosed(after) && IsFragment(f) && Free(v)
    }

    function With(t: string): string {
      Url(path, before + [x + "=" + t] + after, f)
    }
  }

  predicate LawHolds(s: Setting, t: string)
    requires s.Ok()
  {
    Law(s.With(t), s.k, s.v, s.other)
  }

  /** The law holds around a value in all settings exactly when no question mark in it comes
      last or before a key. */
  lemma LawHoldsExactly(t: string)
    requires '&' !in t && '#' !in t
    ensures (forall s: Setting :: s.Ok() ==> LawHolds(s, t)) <==> Closed(t)
  {
    hide Closed, LawHolds;
    if Closed(t) {
      forall s: Setting | s.Ok() ensures LawHolds(s, t) {
        ClosedIsSafe(s, t);
      }
    } else {
      var s := Breaks(t);
      assert s.Ok() && !LawHolds(s, t);
    }
  }

  lemma ClosedIsSafe(s: Setting, t: string)
    requires s.Ok() && Closed(t)
    ensures LawHolds(s, t)
  {
    hide Closed, Law, Url, KeyOk, Free, Orderly;
    var segs := s.before + [s.x + "=" + t] + s.after;
    ClosedParam(s.x, t);
    ClosedIsOrderly(s.path, segs, s.f);
    UrlLawExactly(s.With(t));
    assert LawFor(s.With(t), s.k);
  }

  /** A parameter is closed when its value is. */
  lemma ClosedParam(k: string, v: string)
    requires KeyOk(k) && Closed(v)
    ensures Closed(k + "=" + v)
  {
    hide OpensKey, AllKeyChars;
    var s, n := k + "=" + v, |k| + 1;
    assert forall i :: 0 <= i < n ==> s[i] !in {'&', '?', '#'};
    assert forall i :: n <= i < |s| ==> s[i] == v[i - n];
    forall i | 0 <= i < |s| && s[i] == '?' ensures i + 1 < |s| && !OpensKey(s, i + 1) {
      assert v[i - n] == '?';
      if OpensKey(s, i + 1) {
        OpensInValue(s, v, n, i + 1 - n);
      }
    }
  }

  lemma OpensInValue(s: string, v: string, n: nat, i: nat)
    requires |s| == n + |v| && i <= |v| && forall j :: n <= j < |s| ==> s[j] == v[j - n]
    requires OpensKey(s, i + n)
    ensures OpensKey(v, i)
  {
    var e :| i + n < e <= |s| && AllKeyChars(s, i + n, e) && (e == |s| || s[e] in {'=', '\0'});
    assert forall j :: i <= j < e - n ==> v[j] == s[j + n];
    assert AllKeyChars(v, i, e - n);
  }

  /** The piece of a URL with nothing but a long key that has the value t. */
  lemma OpenPiece(x: string, t: string) returns (s: string)
    requires KeyOk(x) && |x| > |t| && '&' !in t && '#' !in t && !Closed(t)
    ensures s == "?" + (x + "=" + t) && IsPiece(s)
    ensures !OneKey(s) || (EndsWithMark(s) && !NoKey(s[..|s| - 1]) && MarkInside(s[..|s| - 1]))
  {
    hide OpensKey, AllKeyChars, IsParamAt;
    s := "?" + (x + "=" + t);
    var n := |x| + 2;
    assert forall j :: 0 <= j < |t| ==> s[n + j] == t[j];
    assert forall j :: 1 <= j <= |x| ==> s[j] == x[j - 1];
    StartsWithParam(s, x, t);
    var i: nat :| i < |t| && t[i] == '?' && (i + 1 == |t| || OpensKey(t, i + 1));
    if i + 1 == |t| {
      var s' := s[..|s| - 1];
      assert s' == "?" + (x + "=" + t[..i]);
      StartsWithParam(s', x, t[..i]);
      assert s'[0] == '?';
    } else {
      var y := OpenedKey(s, n, t, i);
    }
  }

  lemma StartsWithParam(s: string, x: string, t: string)
    requires s == "?" + (x + "=" + t)
    ensures IsParamAt(s, x, 1)
  {
    assert s[1..1 + |x|] == x && s[1 + |x|] == '=';
  }

  lemma OpenedKey(s: string, n: nat, t: string, i: nat) returns (y: string)
    requires |s| == n + |t| && forall j :: 0 <= j < |t| ==> s[n + j] == t[j]
    requires i < |t| && t[i] == '?' && i + 1 <= |t| && OpensKey(t, i + 1)
    ensures KeyOk(y) && |y| < |t| && IsParamAt(s, y, n + i + 1)
  {
    var e :| i + 1 < e <= |t| && AllKeyChars(t, i + 1, e) && (e == |t| || t[e] in {'=', '\0'});
    y := t[i + 1..e];
    assert forall j :: 0 <= j < |y| ==> y[j] == t[i + 1 + j];
    assert s[n + i + 1..n + e] == y;
    assert s[n + i] == t[i];
    assert e < |t| ==> s[n + e] == t[e];
  }

  lemma BadEnd(s: string)
    requires EndsWithMark(s) && !NoKey(s[..|s| - 1]) && MarkInside(s[..|s| - 1])
    ensures !CleanEnd([s])
  {
    hide NoKey, MarkInside;
    var s' := s[..|s| - 1];
    var bs := ChopPieces([s]);
    assert bs == [s'];
    ValueOfText(s');
  }

  lemma ValueOfText(s: string)
    ensures Text([s]) == s && Text([s]) + "" == s
  {
    assert [s][1..] == [] && s + "" == s;
  }

  lemma LoneParam(s: Setting, t: string)
    requires s == Setting("", [], s.x, [], "", s.k, s.v, s.other)
    ensures s.With(t) == "?" + (s.x + "=" + t)
  {
    var p := "?" + (s.x + "=" + t);
    assert [] + [s.x + "=" + t] + [] == [s.x + "=" + t] && "" + "?" + (s.x + "=" + t) == p;
    assert [s.x + "=" + t][1..] == [];
    assert UrlPieces("", [s.x + "=" + t]) == [p];
    ValueOfText(p);
  }

  lemma Breaks(t: string) returns (s: Setting)
    requires '&' !in t && '#' !in t && !Closed(t)
    ensures s.Ok() && !LawHolds(s, t)
  {
    hide Closed, Law, OneKey, NoKey, PiecesOf, IsParamAt, Left, MarkInside, CleanEnd, Text;
    var x := Repeat('x', |t| + 1);
    assert KeyOk(x);
    var p := OpenPiece(x, t);
    ValueOfText(p);
    PiecesBefore([p], "");
    if OneKey(p) {
      BadEnd(p);
    }
    assert !Orderly(p);
    UrlLawExactly(p);
    var k :| KeyOk(k) && !LawFor(p, k);
    var v, y :| Free(v) && KeyOk(y) && y != k && !Law(p, k, v, y);
    s := Setting("", [], x, [], "", k, v, y);
    LoneParam(s, t);
  }
}
