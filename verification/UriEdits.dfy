/** The text of a URL after `removeParam` and after `appendParam`, in pieces. */
module UriEdits {
  import opened UriParams
  import opened UriPieces

  function Last(ps: seq<string>): string
    requires ps != []
  {
    ps[|ps| - 1]
  }

  /** A value without delimiters, as the encoder gives them. */
  predicate Free(s: string) {
    forall i :: 0 <= i < |s| ==> s[i] !in {'&', '?', '#'}
  }

  // ----- the pieces left by removing

  /** The pieces without the parameters of a key. A piece loses all from the first of them on,
      and what is left of it goes on with the next piece. */
  function Left(s: string, rest: seq<string>, k: string): (qs: seq<string>)
    ensures qs != []
    decreases |rest|
  {
    var p := Opening(s, k);
    if p < 0 then [s] + (if rest == [] then [] else Left(rest[0], rest[1..], k))
    else
      ParamFits(s, k, p);
      if rest == [] then [s[..p]] else Left(s[..p] + Tail(rest[0]), rest[1..], k)
  }

  function LeftOf(u: string, k: string): (qs: seq<string>)
    ensures qs != []
  {
    var ps := PiecesOf(u);
    Left(ps[0], ps[1..], k)
  }

  /** Whether a parameter begins at a position depends on the text to its end and one character
      more. */
  lemma SamePrefix(a: string, b: string, n: nat, y: string, i: nat)
    requires n <= |a| && n <= |b| && a[..n] == b[..n] && i + |y| < n
    ensures IsParamAt(a, y, i) <==> IsParamAt(b, y, i)
  {
    assert forall j :: 0 <= j < n ==> a[j] == a[..n][j] == b[..n][j] == b[j];
    assert a[i..i + |y|] == b[i..i + |y|];
  }

  lemma EndsBefore(s: string, p: nat, y: string, j: nat)
    requires KeyOk(y) && 0 < p <= |s| && s[p - 1] in {'&', '?'} && j < p && IsParamAt(s, y, j)
    ensures j + |y| < p
  {
    KeyHasNoDelimiter(s, y, j);
  }

  /** In a piece joined to the beginning of another, the parameters are those of both. */
  lemma Joined(s: string, p: nat, r: string, y: string, j: nat)
    requires KeyOk(y) && 0 < p <= |s| && s[p - 1] in {'&', '?'} && IsNext(r)
    ensures IsParamAt(s[..p] + Tail(r), y, j) <==> if j < p then IsParamAt(s, y, j) else IsParamAt(r, y, j - p + 1)
  {
    hide KeyOk;
    var m := s[..p] + Tail(r);
    assert m[p - 1] == s[p - 1];
    if j >= p {
      JoinedBehind(s[..p], r, y, j);
    } else {
      hide IsParamAt, IsPiece;
      assert m[..p] == s[..p];
      if IsParamAt(m, y, j) {
        EndsBefore(m, p, y, j);
      } else if IsParamAt(s, y, j) {
        EndsBefore(s, p, y, j);
      }
      if j + |y| < p {
        SamePrefix(s, m, p, y, j);
      }
    }
  }

  lemma JoinedBehind(a: string, r: string, y: string, j: nat)
    requires a != "" && a[|a| - 1] in {'&', '?'} && IsNext(r) && |a| <= j
    ensures IsParamAt(a + Tail(r), y, j) <==> IsParamAt(r, y, j - |a| + 1)
  {
    var m, i := a + Tail(r), j - |a| + 1;
    assert forall n :: |a| <= n < |m| ==> m[n] == r[n - |a| + 1];
    if j + |y| <= |m| {
      assert m[j..j + |y|] == r[i..i + |y|];
    }
  }

  /** When the beginning has no parameter with the key, the first one is that of the end. */
  lemma JoinedOpening(s: string, p: nat, r: string, y: string)
    requires KeyOk(y) && 0 < p <= |s| && s[p - 1] in {'&', '?'} && IsNext(r)
    requires forall j :: 0 < j < p ==> !IsParamAt(s, y, j)
    ensures var m, i := s[..p] + Tail(r), Opening(r, y);
      Opening(m, y) == (if i < 0 then -1 else p + i - 1) && ValueIn(m, y) == ValueIn(r, y)
  {
    hide IsParamAt, KeyOk;
    var m := s[..p] + Tail(r);
    forall j: nat ensures IsParamAt(m, y, j) <==> if j < p then IsParamAt(s, y, j) else IsParamAt(r, y, j - p + 1) {
      Joined(s, p, r, y, j);
    }
    var i := Opening(r, y);
    NotAtStart(r, y);
    NotAtStart(s, y);
    if i >= 0 {
      assert IsParamAt(m, y, p + i - 1);
      ParamFits(r, y, i);
      if i + |y| < |r| {
        assert m[p + i + |y|..] == r[i + |y| + 1..];
      }
    }
  }

  lemma JoinedIsPiece(s: string, p: nat, r: string)
    requires IsPiece(s) && 0 < p <= |s| && IsNext(r)
    ensures IsPiece(s[..p] + Tail(r)) && s[..p] + Tail(r) != "" && (IsNext(s) ==> IsNext(s[..p] + Tail(r)))
    ensures IsPiece(s[..p])
  {
  }

  /** The text of the pieces left is what `removeParam` keeps. */
  lemma {:induction false} LeftIsKept(s: string, rest: seq<string>, k: string)
    requires KeyOk(k) && IsPiece(s) && AreNext(rest) && (rest != [] ==> s != "")
    ensures Text(Left(s, rest, k)) == Kept([s] + rest, k)
    ensures ArePieces(Left(s, rest, k)) && (IsNext(s) ==> AreNext(Left(s, rest, k)))
    decreases |rest|
  {
    hide IsParamAt, Opening, KeyOk, IsPiece;
    var p := Opening(s, k);
    assert ([s] + rest)[1..] == rest;
    if p >= 0 {
      ParamInside(s, k, p);
    }
    if rest == [] {
      assert s + "" == s;
      if p >= 0 {
        JoinedIsPiece(s, p, "&");
        assert Text([s[..p]]) == s[..p] + "";
      } else {
        assert Text([s]) == s + "";
      }
    } else if p < 0 {
      LeftIsKept(rest[0], rest[1..], k);
      assert [rest[0]] + rest[1..] == rest;
      var more := Left(rest[0], rest[1..], k);
      assert ([s] + more)[1..] == more;
    } else {
      JoinedIsPiece(s, p, rest[0]);
      LeftIsKept(s[..p] + Tail(rest[0]), rest[1..], k);
      JoinedKept(s, rest[0], rest[1..], k);
      assert [rest[0]] + rest[1..] == rest;
    }
  }

  lemma KeptUnfold(s: string, rest: seq<string>, k: string)
    requires KeyOk(k)
    ensures var p := Opening(s, k);
      && p <= |s|
      && Kept([s] + rest, k) == if p < 0 then s + Kept(rest, k) else s[..p] + Tail(Kept(rest, k))
  {
    hide IsParamAt, Opening, KeyOk;
    assert ([s] + rest)[1..] == rest;
    if Opening(s, k) >= 0 {
      ParamFits(s, k, Opening(s, k));
    }
  }

  lemma JoinedCut(s: string, r: string, k: string)
    requires KeyOk(k) && IsNext(r) && Opening(s, k) >= 0
    ensures var p, i := Opening(s, k), Opening(r, k);
      && 0 < p <= |s| && i <= |r| && r != "" && (i < 0 || 0 < i)
      && Opening(s[..p] + Tail(r), k) == if i < 0 then -1 else p + i - 1
  {
    hide IsParamAt, KeyOk, IsPiece;
    var p, i := Opening(s, k), Opening(r, k);
    ParamInside(s, k, p);
    if i >= 0 {
      ParamInside(r, k, i);
    }
    JoinedOpening(s, p, r, k);
  }

  lemma JoinedKept(s: string, r: string, more: seq<string>, k: string)
    requires KeyOk(k) && IsNext(r) && Opening(s, k) >= 0
    ensures Opening(s, k) <= |s|
    ensures Kept([s[..Opening(s, k)] + Tail(r)] + more, k) == Kept([s] + ([r] + more), k)
  {
    hide IsParamAt, Opening, KeyOk, Kept, IsPiece, Tail;
    JoinedCut(s, r, k);
    var p, i, x := Opening(s, k), Opening(r, k), Kept(more, k);
    var m := s[..p] + Tail(r);
    KeptUnfold(s, [r] + more, k);
    KeptUnfold(r, more, k);
    KeptUnfold(m, more, k);
    JoinedText(s, p, r, i, x);
    if i < 0 {
      assert Kept([m] + more, k) == m + x == s[..p] + Tail(r + x);
    } else {
      assert Kept([m] + more, k) == m[..p + i - 1] + Tail(x) == s[..p] + Tail(r[..i] + Tail(x));
    }
  }

  lemma JoinedText(s: string, p: nat, r: string, i: int, more: string)
    requires p <= |s| && r != "" && i <= |r|
    ensures i < 0 ==> s[..p] + Tail(r) + more == s[..p] + Tail(r + more)
    ensures i > 0 ==>
      (s[..p] + Tail(r))[..p + i - 1] + Tail(more) == s[..p] + Tail(r[..i] + Tail(more))
  {
    hide Tail;
    TailOfSum(r, more);
    if i > 0 {
      TailOfSum(r[..i], Tail(more));
      JoinedPrefix(s[..p], r, i);
    }
  }

  lemma TailOfSum(r: string, more: string)
    requires r != ""
    ensures Tail(r + more) == Tail(r) + more
  {
  }

  lemma JoinedPrefix(a: string, r: string, i: nat)
    requires 0 < i <= |r|
    ensures |a + Tail(r)| >= |a| + i - 1 && (a + Tail(r))[..|a| + i - 1] == a + Tail(r[..i])
  {
  }

  // ----- the fragment

  lemma HashAfter(t: string, f: string)
    requires '#' !in t && IsFragment(f)
    ensures HashOrEnd(t + f) == |t| && IndexOf(t + f, "#", 0) == if f == "" then -1 else |t|
  {
    var u := t + f;
    var i := IndexOf(u, "#", 0);
    assert i >= 0 ==> u[i..i + 1][0] == u[i] == '#';
    assert forall j :: 0 <= j < |t| ==> u[j] == t[j];
    if f != "" {
      assert u[|t|..|t| + 1] == "#";
      assert OccursAt(u, "#", |t|);
    }
  }

  // ----- punctuation at the end

  lemma {:induction false} TrailingAfter(t: string, f: string, i: nat)
    requires '#' !in t && IsFragment(f) && i <= |t|
    requires t == "" || t[|t| - 1] !in {'?', '&'}
    ensures var r := TrailingPunctuation(f);
      TrailingPunctuation(t + f, i) == if r < 0 then -1 else |t| + r
    decreases |t| - i
  {
    if i < |t| {
      assert (t + f)[i] == t[i];
      assert i + 1 < |t| ==> (t + f)[i + 1] == t[i + 1];
      TrailingAfter(t, f, i + 1);
    } else {
      TrailingShift(t, f, 0);
    }
  }

  lemma {:induction false} TrailingShift(t: string, f: string, i: nat)
    requires i <= |f|
    ensures var r := TrailingPunctuation(f, i);
      TrailingPunctuation(t + f, |t| + i) == if r < 0 then -1 else |t| + r
    decreases |f| - i
  {
    if i < |f| {
      assert (t + f)[|t| + i] == f[i];
      assert i + 1 < |f| ==> (t + f)[|t| + i + 1] == f[i + 1];
      TrailingShift(t, f, i + 1);
    }
  }

  lemma {:induction false} TrailingAtEnd(t: string, f: string, i: nat)
    requires '#' !in t && IsFragment(f) && i < |t| && t[|t| - 1] in {'?', '&'}
    ensures TrailingPunctuation(t + f, i) == |t| - 1
    decreases |t| - i
  {
    var u := t + f;
    assert u[i] == t[i];
    if i + 1 < |t| {
      assert u[i + 1] == t[i + 1];
      TrailingAtEnd(t, f, i + 1);
    } else {
      assert f != "" ==> u[i + 1] == f[0];
    }
  }

  lemma DropsFromQuery(t: string, f: string)
    requires '#' !in t && IsFragment(f) && t != "" && t[|t| - 1] in {'?', '&'}
    ensures DropPunctuation(t + f) == t[..|t| - 1] + f
  {
    hide TrailingPunctuation;
    TrailingAtEnd(t, f, 0);
    assert (t + f)[..|t| - 1] == t[..|t| - 1] && (t + f)[|t| - 1 + 1..] == f;
  }

  lemma DropsFromFragment(t: string, f: string)
    requires '#' !in t && IsFragment(f) && (t == "" || t[|t| - 1] !in {'?', '&'})
    ensures DropPunctuation(t + f) == t + DropPunctuation(f) && IsFragment(DropPunctuation(f))
  {
    hide TrailingPunctuation, Punctuates;
    TrailingAfter(t, f, 0);
    TrailingIsPunctuation(f);
    var r := TrailingPunctuation(f);
    if r >= 0 {
      CutBehind(t, f, r);
    }
  }

  lemma TrailingIsPunctuation(f: string)
    ensures var r := TrailingPunctuation(f); r >= 0 ==> f[r] in {'?', '&'}
  {
  }

  lemma CutBehind(t: string, f: string, r: nat)
    requires r < |f| && IsFragment(f) && f[r] in {'?', '&'}
    ensures (t + f)[..|t| + r] + (t + f)[|t| + r + 1..] == t + (f[..r] + f[r + 1..])
    ensures IsFragment(f[..r] + f[r + 1..])
  {
    assert (t + f)[..|t| + r] == t + f[..r] && (t + f)[|t| + r + 1..] == f[r + 1..];
    assert t + f[..r] + f[r + 1..] == t + (f[..r] + f[r + 1..]);
    assert r > 0 && f[..r][0] == f[0];
  }

  function Chop(b: string): string {
    if b != "" && b[|b| - 1] in {'?', '&'} then b[..|b| - 1] else b
  }

  /** What `removeParam` leaves: the pieces left, without a delimiter at their end. One may go
      from the fragment instead. */
  lemma RemoveText(u: string, k: string) returns (f: string)
    requires KeyOk(k)
    ensures var t := Text(LeftOf(u, k));
      RemoveParam(u, k) == Chop(t) + f && '#' !in t && IsFragment(f) && ArePieces(LeftOf(u, k))
  {
    hide HashOrEnd, DropPunctuation, Kept, Left, Shape, PiecesOf, IsPiece, AreNext, ArePieces, KeyOk;
    WholeShape(u, k);
    RemoveDrops(u, k);
    var ps := PiecesOf(u);
    LeftOfPieces(u, k);
    var t := Text(LeftOf(u, k));
    assert [ps[0]] + ps[1..] == ps;
    TextHasNoHash(LeftOf(u, k));
    f := u[HashOrEnd(u)..];
    if t != "" && t[|t| - 1] in {'?', '&'} {
      DropsFromQuery(t, f);
    } else {
      DropsFromFragment(t, f);
      f := DropPunctuation(f);
    }
  }

  lemma LeftOfPieces(u: string, k: string)
    requires KeyOk(k)
    ensures var ps := PiecesOf(u);
      ArePieces(ps) && ArePieces(LeftOf(u, k)) && Text(LeftOf(u, k)) == Kept([ps[0]] + ps[1..], k)
  {
    hide Left, PiecesOf, Kept, Shape, HashOrEnd, Quiet;
    WholeShape(u, k);
    var ps := PiecesOf(u);
    LeftIsKept(ps[0], ps[1..], k);
  }

  lemma {:induction false} TextHasNoHash(ps: seq<string>)
    requires ArePieces(ps) || AreNext(ps)
    ensures '#' !in Text(ps)
  {
    if ps != [] {
      TextHasNoHash(ps[1..]);
      assert AreNext(ps) ==> IsNext(ps[0]);
    }
  }

  lemma {:induction false} TextOfConcat(a: seq<string>, b: seq<string>)
    ensures Text(a + b) == Text(a) + Text(b)
  {
    if a == [] {
      assert a + b == b;
    } else {
      TextOfConcat(a[1..], b);
      assert (a + b)[1..] == a[1..] + b;
      assert a[0] + (Text(a[1..]) + Text(b)) == a[0] + Text(a[1..]) + Text(b);
    }
  }

  predicate EndsWithMark(s: string) {
    s != "" && s[|s| - 1] == '?'
  }

  /** The same on pieces: a question mark at the end, or a last piece that is one ampersand. */
  function ChopPieces(qs: seq<string>): (bs: seq<string>)
    requires qs != []
    ensures bs != []
  {
    var l, n := Last(qs), |qs| - 1;
    if EndsWithMark(l) then qs[..n] + [l[..|l| - 1]]
    else if l == "&" then (if n == 0 then [""] else qs[..n])
    else qs
  }

  lemma TextOfLast(qs: seq<string>)
    requires qs != []
    ensures Text(qs) == Text(qs[..|qs| - 1]) + Last(qs)
  {
    var n := |qs| - 1;
    TextOfConcat(qs[..n], [Last(qs)]);
    assert qs == qs[..n] + [Last(qs)];
    assert Text([Last(qs)]) == Last(qs) + Text([]);
  }

  lemma LastIsPiece(qs: seq<string>)
    requires ArePieces(qs)
    ensures IsPiece(Last(qs)) && (|qs| > 1 ==> IsNext(Last(qs)))
    ensures forall s :: IsPiece(s) && (|qs| > 1 ==> IsNext(s)) ==> ArePieces(qs[..|qs| - 1] + [s])
    ensures |qs| > 1 ==> ArePieces(qs[..|qs| - 1])
  {
    hide IsPiece;
    var n := |qs| - 1;
    if n > 0 {
      assert Last(qs) == qs[1..][n - 1];
      assert qs[..n][1..] == qs[1..][..n - 1];
      forall s | IsNext(s) ensures ArePieces(qs[..n] + [s]) {
        assert (qs[..n] + [s])[1..] == qs[1..][..n - 1] + [s];
      }
    }
  }

  lemma ChopsText(qs: seq<string>)
    requires ArePieces(qs)
    ensures Text(ChopPieces(qs)) == Chop(Text(qs)) && ArePieces(ChopPieces(qs))
  {
    hide AreNext, IsPiece, Text;
    var l, n := Last(qs), |qs| - 1;
    LastIsPiece(qs);
    TextOfLast(qs);
    ChopsLast(l);
    if EndsWithMark(l) {
      var bs := ChopPieces(qs);
      TextOfLast(bs);
      assert bs[..n] == qs[..n] && Last(bs) == l[..|l| - 1];
    } else if l == "" {
      assert n == 0 && qs[..0] == [];
      TextOfNone();
    } else if l == "&" {
      TextOfNone();
      assert ArePieces([""]) by {
        PieceOfNone();
      }
    }
  }

  lemma PieceOfNone()
    ensures ArePieces([""])
  {
  }

  lemma TextOfNone()
    ensures Text([]) == "" && Text([""]) == ""
  {
  }

  lemma ChopsLast(l: string)
    requires IsPiece(l)
    ensures l != "" && l != "&" && !EndsWithMark(l) ==> l[|l| - 1] !in {'?', '&'}
    ensures EndsWithMark(l) ==> IsPiece(l[..|l| - 1]) && (IsNext(l) ==> IsNext(l[..|l| - 1]))
  {
  }

  // ----- the pieces after appending

  /** What stands between a text and a parameter appended to it. */
  function Joint(b: string): (j: string)
    ensures j == "&" || j == "?" || (j == "" && EndsWithMark(b))
  {
    var q := IndexOf(b, "?", 0);
    if q < 0 then "?" else if q == |b| - 1 then "" else "&"
  }

  /** There is a question mark before the last character. */
  predicate MarkInside(b: string) {
    exists i :: 0 <= i < |b| - 1 && b[i] == '?'
  }

  lemma JointIs(b: string)
    ensures Joint(b) == if MarkInside(b) then "&" else if EndsWithMark(b) then "" else "?"
  {
    OccurrencesOfChar(b, '?');
    assert forall i :: 0 <= i < |b| && b[i] == '?' ==> OccursAt(b, "?", i);
  }

  lemma AppendText(b: string, f: string, k: string, v: string)
    requires '#' !in b && IsFragment(f)
    ensures AppendParam(b + f, k, v) == b + Joint(b) + (k + "=" + v) + f
  {
    HashAfter(b, f);
    assert (b + f)[..|b|] == b && (b + f)[|b|..] == f;
    assert f == "" ==> b + f == b;
    var sep := Joint(b);
    hide Joint;
    assert b + sep + k + "=" + v == b + sep + (k + "=" + v);
  }

  /** The pieces of a text and a parameter behind it. */
  function Added(bs: seq<string>, kv: string): seq<string>
    requires bs != []
  {
    var j, n := Joint(Text(bs)), |bs| - 1;
    if j == "&" then bs + ["&" + kv] else bs[..n] + [Last(bs) + j + kv]
  }

  lemma AddedText(bs: seq<string>, kv: string)
    requires ArePieces(bs) && Free(kv)
    ensures ArePieces(Added(bs, kv)) && Text(Added(bs, kv)) == Text(bs) + Joint(Text(bs)) + kv
  {
    hide AreNext, IsPiece, Text, Joint, Free;
    var j, l, n := Joint(Text(bs)), Last(bs), |bs| - 1;
    LastIsPiece(bs);
    PieceOfParam(l, kv);
    if j == "&" {
      NotOnlyEmpty(bs);
      AppendPiece(bs, "&" + kv);
      LastText(bs, "&" + kv);
      assert Text(bs) + ("&" + kv) == Text(bs) + "&" + kv;
    } else {
      TextOfLast(bs);
      LastText(bs[..n], l + j + kv);
      assert Text(bs[..n]) + (l + j + kv) == Text(bs[..n]) + l + j + kv;
    }
  }

  lemma LastText(a: seq<string>, s: string)
    ensures Text(a + [s]) == Text(a) + s
  {
    TextOfLast(a + [s]);
    assert (a + [s])[..|a|] == a;
  }

  lemma NotOnlyEmpty(bs: seq<string>)
    requires bs != [] && Joint(Text(bs)) == "&"
    ensures bs != [""]
  {
    JointIs(Text(bs));
    TextOfNone();
  }

  lemma AppendPiece(bs: seq<string>, s: string)
    requires ArePieces(bs) && bs != [""] && IsNext(s)
    ensures ArePieces(bs + [s])
  {
    assert (bs + [s])[1..] == bs[1..] + [s];
  }

  lemma PieceOfParam(l: string, kv: string)
    requires IsPiece(l) && Free(kv)
    ensures IsNext("&" + kv)
    ensures forall j :: j == "?" || j == "" ==> IsPiece(l + j + kv) && (IsNext(l) ==> IsNext(l + j + kv))
  {
  }

  lemma FreeParam(k: string, v: string)
    requires KeyOk(k) && Free(v)
    ensures Free(k + "=" + v)
  {
  }

  /** The pieces of a text that a fragment follows. */
  lemma PiecesBefore(ps: seq<string>, f: string)
    requires ArePieces(ps) && IsFragment(f)
    ensures PiecesOf(Text(ps) + f) == ps
  {
    TextHasNoHash(ps);
    HashAfter(Text(ps), f);
    PiecesUnique(ps);
    assert (Text(ps) + f)[..|Text(ps)|] == Text(ps);
  }

  /** The pieces of a URL with a parameter appended. */
  lemma AppendPieces(bs: seq<string>, f: string, k: string, v: string)
    requires ArePieces(bs) && IsFragment(f) && KeyOk(k) && Free(v)
    ensures PiecesOf(AppendParam(Text(bs) + f, k, v)) == Added(bs, k + "=" + v)
  {
    hide AreNext, IsPiece, Text, Joint, Free, PiecesOf, AppendParam, Added;
    TextHasNoHash(bs);
    FreeParam(k, v);
    AppendText(Text(bs), f, k, v);
    AddedText(bs, k + "=" + v);
    PiecesBefore(Added(bs, k + "=" + v), f);
  }

  /** The pieces of a URL after `setParam`. */
  lemma SetPieces(u: string, k: string, v: string)
    requires KeyOk(k) && Free(v)
    ensures PiecesOf(SetParam(u, k, v)) == Added(ChopPieces(LeftOf(u, k)), k + "=" + v)
    ensures ArePieces(LeftOf(u, k))
  {
    hide ArePieces, Text, Free, PiecesOf, AppendParam, RemoveParam, Added, ChopPieces, LeftOf;
    var f := RemoveText(u, k);
    ChopsText(LeftOf(u, k));
    AppendPieces(ChopPieces(LeftOf(u, k)), f, k, v);
  }
}
