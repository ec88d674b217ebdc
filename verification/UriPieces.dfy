/** A URL as the pieces its ampersands cut it into, and what reading and removing a parameter
    do to the pieces, for every URL. */
module UriPieces {
  import opened UriParams

  /** The text before the fragment, cut in front of each ampersand but a leading one. */
  function Pieces(t: string): (ps: seq<string>)
    ensures ps != []
    decreases |t|
  {
    var i := IndexOf(t, "&", 1);
    if i < 0 then [t] else [t[..i]] + Pieces(t[i..])
  }

  function Text(ps: seq<string>): string {
    if ps == [] then "" else ps[0] + Text(ps[1..])
  }

  predicate IsPiece(s: string) {
    '#' !in s && forall i :: 0 < i < |s| ==> s[i] != '&'
  }

  predicate IsNext(s: string) {
    IsPiece(s) && s != "" && s[0] == '&'
  }

  predicate AreNext(ps: seq<string>) {
    forall i :: 0 <= i < |ps| ==> IsNext(ps[i])
  }

  predicate ArePieces(ps: seq<string>) {
    ps != [] && IsPiece(ps[0]) && AreNext(ps[1..]) && (|ps| > 1 ==> ps[0] != "")
  }

  predicate IsFragment(f: string) {
    f == "" || f[0] == '#'
  }

  /** The text of a URL before its fragment, in pieces. */
  function PiecesOf(u: string): (ps: seq<string>)
    ensures ps != []
  {
    Pieces(u[..HashOrEnd(u)])
  }

  /** Where the first piece ends. */
  lemma FirstCut(t: string)
    ensures var i := IndexOf(t, "&", 1);
      && i < |t| && (i < 0 || (0 < i && t[i] == '&'))
      && (forall j :: 0 < j < (if i < 0 then |t| else i) ==> t[j] != '&')
  {
    hide IndexOf;
    OccurrencesOfChar(t, '&');
    forall j | 0 < j < |t| && t[j] == '&' ensures 0 < IndexOf(t, "&", 1) <= j {
      assert OccursAt(t, "&", j);
    }
  }

  lemma {:induction false} PiecesGive(t: string)
    requires '#' !in t
    ensures ArePieces(Pieces(t)) && Text(Pieces(t)) == t
    decreases |t|
  {
    hide IndexOf, OccursAt;
    FirstCut(t);
    var i := IndexOf(t, "&", 1);
    if i < 0 {
      assert Text([t][1..]) == "" && t + "" == t;
    } else {
      PiecesGive(t[i..]);
      PiecesStart(t[i..]);
      CutOff(t, i, Pieces(t[i..]));
    }
  }

  lemma CutOff(t: string, i: nat, more: seq<string>)
    requires 0 < i < |t| && t[i] == '&' && '#' !in t && (forall j :: 0 < j < i ==> t[j] != '&')
    requires ArePieces(more) && Text(more) == t[i..] && more[0] != "" && more[0][0] == '&'
    ensures ArePieces([t[..i]] + more) && Text([t[..i]] + more) == t
  {
    hide IsPiece;
    assert IsPiece(t[..i]) by { PrefixIsPiece(t, i); }
    assert IsNext(more[0]);
    assert ([t[..i]] + more)[1..] == more == [more[0]] + more[1..];
    assert t[..i] + t[i..] == t;
  }

  lemma PrefixIsPiece(t: string, i: nat)
    requires i <= |t| && '#' !in t && (forall j :: 0 < j < i ==> t[j] != '&')
    ensures IsPiece(t[..i])
  {
  }

  lemma PiecesStart(t: string)
    requires t != ""
    ensures Pieces(t)[0] != "" && Pieces(t)[0][0] == t[0]
  {
  }

  /** Text has only one division into pieces. */
  lemma {:induction false} PiecesUnique(ps: seq<string>)
    requires ArePieces(ps)
    ensures Pieces(Text(ps)) == ps
  {
    hide IndexOf;
    var t, s := Text(ps), ps[0];
    OccurrencesOfChar(t, '&');
    var i := IndexOf(t, "&", 1);
    assert forall j :: 0 <= j < |s| ==> t[j] == s[j];
    if |ps| == 1 {
      assert ps[1..] == [] && s + "" == s;
      assert i >= 0 ==> OccursAt(t, "&", i);
    } else {
      var rest := ps[1..];
      assert IsNext(rest[0]);
      var tail := Text(rest);
      assert tail == rest[0] + Text(rest[1..]);
      assert t == s + tail && tail[0] == '&';
      assert t[|s|] == '&';
      assert OccursAt(t, "&", |s|);
      assert i >= 0 && OccursAt(t, "&", i);
      assert i == |s|;
      assert t[..i] == s && t[i..] == tail;
      assert ArePieces(rest);
      PiecesUnique(rest);
    }
  }

  // ----- one key in one piece

  /** Where a parameter with the key first begins in a piece, at i or later, or -1. */
  function Opening(s: string, k: string, i: nat := 1): (r: int)
    ensures r == -1 || (i <= r && IsParamAt(s, k, r))
    ensures forall j :: i <= j && (r < 0 || j < r) ==> !IsParamAt(s, k, j)
    decreases |s| + 1 - i
  {
    if i > |s| then -1
    else if IsParamAt(s, k, i) then i
    else Opening(s, k, i + 1)
  }

  /** The value of a parameter reaches to the end of its piece. */
  function ValueAt(s: string, k: string, p: nat): string {
    if |s| <= p + |k| then "" else s[p + |k| + 1..]
  }

  function ValueIn(s: string, k: string): seq<string> {
    var p := Opening(s, k);
    if p < 0 then [] else [ValueAt(s, k, p)]
  }

  /** The values of the key, one from each piece that opens it. */
  function Values(ps: seq<string>, k: string): seq<string> {
    if ps == [] then [] else ValueIn(ps[0], k) + Values(ps[1..], k)
  }

  // ----- pieces inside a URL

  /** From position b on, u holds pieces and the fragment. */
  ghost predicate Shape(u: string, b: nat, ps: seq<string>, f: string) {
    && b <= |u| && u[b..] == Text(ps) + f && IsFragment(f) && HashOrEnd(u) == |u| - |f|
    && (forall i :: 0 <= i < |ps| ==> IsPiece(ps[i]))
    && (forall i :: 0 <= i < |ps| && 0 < b + i ==> IsNext(ps[i]))
  }

  /** The text s stands in u before an ampersand, a hash or the end. */
  ghost predicate Stands(u: string, b: nat, s: string) {
    && b + |s| <= |u| && u[b..b + |s|] == s && IsPiece(s)
    && (b > 0 ==> IsNext(s)) && (b + |s| == |u| || u[b + |s|] in {'&', '#'})
  }

  lemma ShapeStep(u: string, b: nat, ps: seq<string>, f: string)
    requires ps != [] && Shape(u, b, ps, f)
    ensures var n := b + |ps[0]|; Stands(u, b, ps[0]) && Shape(u, n, ps[1..], f) && n <= HashOrEnd(u)
  {
    hide HashOrEnd;
    var s, rest := ps[0], ps[1..];
    var n := b + |s|;
    assert Text(ps) + f == s + (Text(rest) + f);
    assert u[b..][..|s|] == s && u[b..][|s|..] == Text(rest) + f;
    assert u[b..n] == s && u[n..] == Text(rest) + f;
    assert forall i :: 0 <= i < |rest| ==> rest[i] == ps[i + 1];
    if rest != [] {
      assert IsNext(ps[1]);
      assert u[n] == u[n..][0] == rest[0][0];
    } else {
      assert u[n..] == f;
      assert f != "" ==> u[n] == u[n..][0];
    }
  }

  /** A parameter begins in the URL where it begins in its piece. */
  lemma ParamsOfPiece(u: string, b: nat, s: string, k: string, j: nat)
    requires KeyOk(k) && Stands(u, b, s) && b <= j <= b + |s|
    ensures IsParamAt(u, k, j) <==> IsParamAt(s, k, j - b)
  {
    assert forall i :: 0 <= i < |s| ==> u[b + i] == u[b..b + |s|][i] == s[i];
    if IsParamAt(u, k, j) {
      KeyHasNoDelimiter(u, k, j);
      assert u[j] !in {'&', '#'};
      assert j > b && j + |k| <= b + |s|;
      assert s[j - b..j - b + |k|] == u[j..j + |k|];
    }
    if IsParamAt(s, k, j - b) {
      assert s[j - b..j - b + |k|] == u[j..j + |k|];
    }
  }

  // ----- reading

  /** No parameter with the key begins from d up to b. */
  ghost predicate Quiet(u: string, k: string, d: nat, b: nat) {
    forall j :: d <= j < b ==> !IsParamAt(u, k, j)
  }

  /** What the search finds of a piece. */
  lemma FindInPiece(u: string, b: nat, ps: seq<string>, f: string, k: string, d: nat)
    requires KeyOk(k) && ps != [] && Shape(u, b, ps, f) && Quiet(u, k, d, b) && d <= b + 1
    ensures var p := Opening(ps[0], k);
      if p < 0 then Quiet(u, k, d, b + |ps[0]|)
      else b + p < HashOrEnd(u) && FindParam(u, d, k, HashOrEnd(u)) == b + p
  {
    hide IsParamAt, HashOrEnd, FindParam, KeyOk, Opening, Stands, Shape;
    ShapeStep(u, b, ps, f);
    var s, p := ps[0], Opening(ps[0], k);
    forall j | b <= j <= b + |s| ensures IsParamAt(u, k, j) <==> IsParamAt(s, k, j - b) {
      ParamsOfPiece(u, b, s, k, j);
    }
    NotAtStart(s, k);
    if p >= 0 {
      ParamInside(s, k, p);
      FindsFirst(u, d, k, HashOrEnd(u));
      assert IsParamAt(u, k, b + p);
    }
  }

  lemma NotAtStart(s: string, k: string)
    ensures !IsParamAt(s, k, 0)
  {
  }

  lemma ParamInside(s: string, k: string, p: nat)
    requires KeyOk(k) && IsParamAt(s, k, p)
    ensures 0 < p < p + |k| <= |s| && s[p - 1] in {'&', '?'}
  {
  }

  lemma FindNone(u: string, d: nat, k: string)
    requires KeyOk(k) && Quiet(u, k, d, HashOrEnd(u))
    ensures FindParam(u, d, k, HashOrEnd(u)) == -1
  {
    FindsFirst(u, d, k, HashOrEnd(u));
  }

  /** What stands behind a piece. */
  lemma BehindPiece(u: string, b: nat, ps: seq<string>, f: string)
    requires ps != [] && Shape(u, b, ps, f)
    ensures var n := b + |ps[0]|;
      && n <= HashOrEnd(u) <= |u|
      && (forall j :: b < j < n ==> u[j] != '&')
      && (if |ps| > 1 then n < HashOrEnd(u) && u[n] == '&' else n == HashOrEnd(u))
  {
    hide HashOrEnd, IsParamAt;
    ShapeStep(u, b, ps, f);
    var s, n := ps[0], b + |ps[0]|;
    assert forall i :: 0 <= i < |s| ==> u[b + i] == u[b..n][i] == s[i];
    if |ps| > 1 {
      assert IsNext(ps[1]);
      ShapeStep(u, n, ps[1..], f);
      assert u[n] == u[n..n + |ps[1]|][0] == '&';
    } else {
      assert ps[1..] == [] && u[n..] == f;
    }
  }

  /** The end of a parameter is the end of its piece. */
  lemma EndOfPiece(u: string, b: nat, ps: seq<string>, f: string, p: nat)
    requires ps != [] && Shape(u, b, ps, f) && 0 < p < |ps[0]|
    ensures var i, n := IndexOf(u, "&", b + p), b + |ps[0]|;
      && ParamEnd(u, b + p, HashOrEnd(u)) == n
      && (if |ps| == 1 then i < 0 || i + 1 > HashOrEnd(u) else i == n < HashOrEnd(u))
  {
    hide HashOrEnd, Shape, IndexOf, OccursAt;
    BehindPiece(u, b, ps, f);
    OccurrencesOfChar(u, '&');
    var n := b + |ps[0]|;
    assert |ps| > 1 ==> OccursAt(u, "&", n);
  }

  lemma ValuesFound(u: string, k: string, d: nat)
    requires KeyOk(k) && d <= HashOrEnd(u) && FindParam(u, d, k, HashOrEnd(u)) >= 0
    ensures var c, e := HashOrEnd(u), FindParam(u, d, k, HashOrEnd(u));
      var n := ParamEnd(u, e, c);
      d < n <= c && ValuesFrom(u, k, d) == [Substr(u, e + |k| + 1, n - (e + |k| + 1))] + ValuesFrom(u, k, n)
  {
    hide HashOrEnd, FindParam, IsParamAt, ParamEnd, Substr;
    FindsFirst(u, d, k, HashOrEnd(u));
    ParamEndIsAfter(u, FindParam(u, d, k, HashOrEnd(u)), k, HashOrEnd(u));
  }

  lemma ValuesNone(u: string, k: string, d: nat)
    requires KeyOk(k) && d <= HashOrEnd(u)
    ensures FindParam(u, d, k, HashOrEnd(u)) == -1 ==> ValuesFrom(u, k, d) == []
  {
    hide HashOrEnd, FindParam, IsParamAt;
  }

  lemma {:induction false} ValuesRead(u: string, b: nat, ps: seq<string>, f: string, k: string, d: nat)
    requires KeyOk(k) && Shape(u, b, ps, f) && Quiet(u, k, d, b) && d <= b
    ensures d <= HashOrEnd(u) && ValuesFrom(u, k, d) == Values(ps, k)
    decreases |ps|
  {
    hide IsParamAt, HashOrEnd, FindParam, KeyOk, Opening, Shape, Quiet, ValueAt, ValuesFrom, Values;
    ValuesStep(ps, k);
    if ps == [] {
      ShapeEnd(u, b, f);
      FindNone(u, d, k);
      ValuesNone(u, k, d);
    } else {
      FindInPiece(u, b, ps, f, k, d);
      ShapeNext(u, b, ps, f);
      var n := b + |ps[0]|;
      if Opening(ps[0], k) < 0 {
        ValuesRead(u, n, ps[1..], f, k, d);
      } else {
        ValuesReadCut(u, b, ps, f, k, d);
        QuietHere(u, k, n);
        ValuesRead(u, n, ps[1..], f, k, n);
      }
    }
  }

  lemma ValuesStep(ps: seq<string>, k: string)
    ensures Values(ps, k) ==
      if ps == [] then []
      else if Opening(ps[0], k) < 0 then Values(ps[1..], k)
      else [ValueAt(ps[0], k, Opening(ps[0], k))] + Values(ps[1..], k)
  {
    hide Opening, ValueAt;
    if ps != [] && Opening(ps[0], k) < 0 {
      assert [] + Values(ps[1..], k) == Values(ps[1..], k);
    }
  }

  lemma ValuesReadCut(u: string, b: nat, ps: seq<string>, f: string, k: string, d: nat)
    requires KeyOk(k) && ps != [] && Shape(u, b, ps, f) && Quiet(u, k, d, b) && d <= b && Opening(ps[0], k) >= 0
    ensures var n := b + |ps[0]|;
      && d <= n <= HashOrEnd(u)
      && ValuesFrom(u, k, d) == [ValueAt(ps[0], k, Opening(ps[0], k))] + ValuesFrom(u, k, n)
  {
    hide IsParamAt, HashOrEnd, FindParam, KeyOk, Opening, Shape, ParamEnd, Substr, Quiet, ValueAt, ValuesFrom;
    FindInPiece(u, b, ps, f, k, d);
    ShapeNext(u, b, ps, f);
    var s, p := ps[0], Opening(ps[0], k);
    ParamInside(s, k, p);
    EndOfPiece(u, b, ps, f, p);
    SubstrIsValue(u, b, s, k, p);
    ValuesFound(u, k, d);
  }

  lemma ShapeNext(u: string, b: nat, ps: seq<string>, f: string)
    requires ps != [] && Shape(u, b, ps, f)
    ensures var n := b + |ps[0]|; n <= |u| && n <= HashOrEnd(u) && u[b..n] == ps[0] && Shape(u, n, ps[1..], f)
  {
    hide HashOrEnd, IsPiece;
    ShapeStep(u, b, ps, f);
  }

  lemma QuietHere(u: string, k: string, d: nat)
    ensures Quiet(u, k, d, d) && Quiet(u, k, d + 1, d)
  {
  }

  lemma ShapeEnd(u: string, b: nat, f: string)
    requires Shape(u, b, [], f)
    ensures b == HashOrEnd(u) && u[b..] == f
  {
  }

  lemma SubstrIsValue(u: string, b: nat, s: string, k: string, p: nat)
    requires b + |s| <= |u| && u[b..b + |s|] == s && p + |k| <= |s|
    ensures Substr(u, b + p + |k| + 1, b + |s| - (b + p + |k| + 1)) == ValueAt(s, k, p)
  {
    if p + |k| < |s| {
      assert u[b..b + |s|][p + |k| + 1..] == u[b + p + |k| + 1..b + |s|];
    }
  }

  lemma WholeShape(u: string, k: string)
    ensures var c := HashOrEnd(u);
      && ArePieces(PiecesOf(u)) && Text(PiecesOf(u)) == u[..c] && IsFragment(u[c..]) && u == u[..c] + u[c..]
      && Shape(u, 0, PiecesOf(u), u[c..]) && Quiet(u, k, 0, 0)
  {
    hide Pieces;
    OccurrencesOfChar(u, '#');
    PiecesGive(u[..HashOrEnd(u)]);
    var ps := PiecesOf(u);
    assert forall i :: 0 < i < |ps| ==> ps[i] == ps[1..][i - 1];
  }

  /** On every URL `getParamValues` gives the values of the key, one from each piece that opens
      it. */
  lemma GetReads(u: string, k: string)
    requires KeyOk(k)
    ensures GetParamValues(u, k) == Values(PiecesOf(u), k)
  {
    hide HashOrEnd, Shape, Quiet;
    WholeShape(u, k);
    ValuesRead(u, 0, PiecesOf(u), u[HashOrEnd(u)..], k, 0);
  }

  // ----- removing

  function Tail(s: string): string {
    if s == "" then "" else s[1..]
  }

  /** What `removeParam` keeps before it drops punctuation: a removed parameter takes the
      ampersand behind it along. */
  function Kept(ps: seq<string>, k: string): string {
    if ps == [] then ""
    else
      var p := Opening(ps[0], k);
      if p < 0 then ps[0] + Kept(ps[1..], k)
      else ParamFits(ps[0], k, p); ps[0][..p] + Tail(Kept(ps[1..], k))
  }

  lemma ParamFits(s: string, k: string, p: nat)
    requires IsParamAt(s, k, p)
    ensures 0 < p && p + |k| <= |s|
  {
  }

  lemma KeptStarts(ps: seq<string>, k: string)
    requires ps != [] && AreNext(ps)
    ensures Kept(ps, k) != "" && Kept(ps, k)[0] == '&'
  {
    hide IsParamAt, Opening;
    var p := Opening(ps[0], k);
    assert IsNext(ps[0]);
    if p >= 0 {
      ParamFits(ps[0], k, p);
    }
  }

  lemma KeptFound(u: string, k: string, d: nat)
    requires KeyOk(k) && d <= HashOrEnd(u) && FindParam(u, d, k, HashOrEnd(u)) >= 0
    ensures var c, e := HashOrEnd(u), FindParam(u, d, k, HashOrEnd(u));
      var i := IndexOf(u, "&", e);
      var d' := if i < 0 || i + 1 > c then c else i + 1;
      d <= e < c && KeptFrom(u, k, d) == u[d..e] + KeptFrom(u, k, d')
  {
    hide HashOrEnd, FindParam, IsParamAt, IndexOf, KeyOk;
    FindsFirst(u, d, k, HashOrEnd(u));
  }

  lemma {:induction false} KeptRead(u: string, b: nat, ps: seq<string>, f: string, k: string, d: nat)
    requires KeyOk(k) && Shape(u, b, ps, f) && Quiet(u, k, d, b) && d <= b + 1
    requires d == b + 1 ==> ps != [] && ps[0] != ""
    ensures d <= HashOrEnd(u) && b <= |u| && d <= b + |Kept(ps, k)| + |f|
    ensures KeptFrom(u, k, d) == (u[..b] + Kept(ps, k) + f)[d..]
    decreases |ps|
  {
    hide IsParamAt, HashOrEnd, FindParam, KeyOk, Opening, Shape, Quiet, KeptFrom;
    if ps == [] {
      ShapeEnd(u, b, f);
      FindNone(u, d, k);
      KeptNone(u, k, d);
      assert u[..b] + "" + f == u;
    } else {
      FindInPiece(u, b, ps, f, k, d);
      ShapeNext(u, b, ps, f);
      var s, p, n, rest := ps[0], Opening(ps[0], k), b + |ps[0]|, ps[1..];
      if p < 0 {
        KeptRead(u, n, rest, f, k, d);
        Regroup(u, b, s, Kept(rest, k), f);
      } else {
        KeptReadCut(u, b, ps, f, k, d);
        var d' := if rest == [] then n else n + 1;
        QuietHere(u, k, n);
        KeptRead(u, n, rest, f, k, d');
        Cuts(u, b, s, p, Kept(rest, k), f, d, d');
      }
    }
  }

  lemma Regroup(u: string, b: nat, s: string, more: string, f: string)
    requires b + |s| <= |u| && u[b..b + |s|] == s
    ensures u[..b + |s|] + more + f == u[..b] + (s + more) + f
  {
    assert u[..b + |s|] == u[..b] + s;
  }

  lemma KeptReadCut(u: string, b: nat, ps: seq<string>, f: string, k: string, d: nat)
    requires KeyOk(k) && ps != [] && Shape(u, b, ps, f) && Quiet(u, k, d, b) && d <= b + 1 && Opening(ps[0], k) >= 0
    ensures var p, n := Opening(ps[0], k), b + |ps[0]|;
      var d' := if |ps| == 1 then n else n + 1;
      && 0 < p <= |ps[0]| && d <= b + p && d' <= HashOrEnd(u)
      && (|ps| > 1 ==> ps[1] != "" && Kept(ps[1..], k) != "")
      && KeptFrom(u, k, d) == u[d..b + p] + KeptFrom(u, k, d')
  {
    hide IsParamAt, HashOrEnd, FindParam, KeyOk, Opening, Shape, Quiet, KeptFrom, Kept;
    FindInPiece(u, b, ps, f, k, d);
    ShapeNext(u, b, ps, f);
    ParamInside(ps[0], k, Opening(ps[0], k));
    EndOfPiece(u, b, ps, f, Opening(ps[0], k));
    KeptFound(u, k, d);
    RestIsNext(u, b, ps, f);
    if |ps| > 1 {
      KeptStarts(ps[1..], k);
      assert IsNext(ps[1..][0]);
    }
  }

  lemma RestIsNext(u: string, b: nat, ps: seq<string>, f: string)
    requires ps != [] && Shape(u, b, ps, f)
    ensures AreNext(ps[1..])
  {
  }

  lemma KeptNone(u: string, k: string, d: nat)
    requires KeyOk(k) && d <= HashOrEnd(u)
    ensures FindParam(u, d, k, HashOrEnd(u)) == -1 ==> KeptFrom(u, k, d) == u[d..]
  {
    hide HashOrEnd, FindParam, IsParamAt;
  }

  lemma Cuts(u: string, b: nat, s: string, p: nat, more: string, f: string, d: nat, d': nat)
    requires b + |s| <= |u| && u[b..b + |s|] == s && 0 < p <= |s| && d <= b + 1
    requires d' == b + |s| + if more == "" then 0 else 1
    ensures u[d..b + p] + (u[..b + |s|] + more + f)[d'..] == (u[..b] + (s[..p] + Tail(more)) + f)[d..]
  {
    var x := Tail(more) + f;
    assert (u[..b + |s|] + more + f)[d'..] == x;
    assert u[..b + p] == u[..b] + s[..p];
    assert u[..b] + (s[..p] + Tail(more)) + f == u[..b + p] + x;
    assert (u[..b + p] + x)[d..] == u[..b + p][d..] + x;
  }

  lemma RemoveDrops(u: string, k: string)
    requires KeyOk(k)
    ensures RemoveParam(u, k) == DropPunctuation(Kept(PiecesOf(u), k) + u[HashOrEnd(u)..])
  {
    hide HashOrEnd, Shape, Quiet, PiecesOf, DropPunctuation, KeptFrom;
    WholeShape(u, k);
    var ps, f := PiecesOf(u), u[HashOrEnd(u)..];
    KeptRead(u, 0, ps, f, k, 0);
    assert u[..0] + Kept(ps, k) + f == Kept(ps, k) + f;
  }

  ghost predicate FirstPunctuation(a: string, i: nat) {
    Punctuates(a, i) && forall j: nat :: j < i ==> !Punctuates(a, j)
  }

  /** On every URL `removeParam` keeps the pieces without the parameters of the key and the
      fragment, but for the first delimiter at an end or before a hash. */
  lemma RemoveKeeps(u: string, k: string)
    requires KeyOk(k)
    ensures var w := Kept(PiecesOf(u), k) + u[HashOrEnd(u)..];
      && (forall i: nat :: FirstPunctuation(w, i) ==> RemoveParam(u, k) == w[..i] + w[i + 1..])
      && ((forall i: nat :: !Punctuates(w, i)) ==> RemoveParam(u, k) == w)
  {
    hide HashOrEnd, PiecesOf, RemoveParam, Kept, Punctuates;
    RemoveDrops(u, k);
    TrailingIsFirst(Kept(PiecesOf(u), k) + u[HashOrEnd(u)..], 0);
    var w := Kept(PiecesOf(u), k) + u[HashOrEnd(u)..];
    forall i: nat | FirstPunctuation(w, i) ensures TrailingPunctuation(w) == i {
      assert Punctuates(w, i);
    }
  }
}
