/** `goog.math.Rect.intersection` and `difference`, over real coordinates. */
module Rects {
  import opened Wrappers

  datatype Rect = Rect(left: real, top: real, width: real, height: real) {
    predicate Valid() {
      width >= 0.0 && height >= 0.0
    }

    function Right(): real {
      left + width
    }

    function Bottom(): real {
      top + height
    }

    function Area(): real {
      width * height
    }

    predicate Contains(x: real, y: real) {
      left <= x <= Right() && top <= y <= Bottom()
    }

    predicate Inside(x: real, y: real) {
      left < x < Right() && top < y < Bottom()
    }
  }

  function Max(x: real, y: real): real {
    if x >= y then x else y
  }

  function Min(x: real, y: real): real {
    if x <= y then x else y
  }

  function Intersection(a: Rect, b: Rect): Option<Rect> {
    var x0, x1 := Max(a.left, b.left), Min(a.Right(), b.Right());
    if x0 <= x1 then
      var y0, y1 := Max(a.top, b.top), Min(a.Bottom(), b.Bottom());
      if y0 <= y1 then Some(Rect(x0, y0, x1 - x0, y1 - y0)) else None
    else None
  }

  /** The common points are those of the intersection; without one there are none. */
  lemma IntersectionExactly(a: Rect, b: Rect, x: real, y: real)
    ensures a.Contains(x, y) && b.Contains(x, y) <==>
      Intersection(a, b).Some? && Intersection(a, b).value.Contains(x, y)
  {
  }

  predicate Within(r: Rect, a: Rect) {
    r.Valid() && a.left <= r.left && r.Right() <= a.Right() && a.top <= r.top && r.Bottom() <= a.Bottom()
  }

  /** Neither overlaps the other with its inner points. */
  predicate Apart(r: Rect, s: Rect) {
    || r.width == 0.0 || r.height == 0.0 || s.width == 0.0 || s.height == 0.0
    || r.Right() <= s.left || s.Right() <= r.left || r.Bottom() <= s.top || s.Bottom() <= r.top
  }

  lemma ApartMeans(r: Rect, s: Rect)
    requires r.Valid() && s.Valid()
    ensures Apart(r, s) <==> forall x, y :: !(r.Inside(x, y) && s.Inside(x, y))
  {
    if !Apart(r, s) {
      var x := (Max(r.left, s.left) + Min(r.Right(), s.Right())) / 2.0;
      var y := (Max(r.top, s.top) + Min(r.Bottom(), s.Bottom())) / 2.0;
      assert r.Inside(x, y) && s.Inside(x, y);
    }
  }

  function AreaOf(rs: seq<Rect>): real {
    if rs == [] then 0.0 else AreaOf(rs[..|rs| - 1]) + rs[|rs| - 1].Area()
  }

  predicate Covered(rs: seq<Rect>, x: real, y: real) {
    exists i :: 0 <= i < |rs| && rs[i].Contains(x, y)
  }

  /** rs is a without b: the pieces lie in a, overlap neither b nor each other, and together
      with b cover a. */
  ghost predicate IsDifference(rs: seq<Rect>, a: Rect, b: Rect) {
    && (forall i :: 0 <= i < |rs| ==> Within(rs[i], a) && Apart(rs[i], b))
    && (forall i, j :: 0 <= i < j < |rs| ==> Apart(rs[i], rs[j]))
    && (forall x, y :: a.Contains(x, y) ==> b.Contains(x, y) || Covered(rs, x, y))
  }

  function CommonArea(a: Rect, b: Rect): real {
    var c := Intersection(a, b);
    if c.None? then 0.0 else c.value.Area()
  }

  // ----- cutting pieces off what is left of a

  /** The pieces lie in a, outside b and outside what is left. */
  ghost predicate Pieces(rs: seq<Rect>, a: Rect, b: Rect, rest: Rect) {
    && Within(rest, a)
    && (forall i :: 0 <= i < |rs| ==> Within(rs[i], a) && Apart(rs[i], b) && Apart(rs[i], rest))
    && (forall i, j :: 0 <= i < j < |rs| ==> Apart(rs[i], rs[j]))
  }

  ghost predicate Covers(rs: seq<Rect>, a: Rect, rest: Rect) {
    forall x, y :: a.Contains(x, y) ==> rest.Contains(x, y) || Covered(rs, x, y)
  }

  predicate AreasAdd(rs: seq<Rect>, a: Rect, rest: Rect) {
    AreaOf(rs) + rest.Area() == a.Area()
  }

  /** One straight cut makes a piece and a rest out of the whole. */
  predicate IsCut(whole: Rect, piece: Rect, rest: Rect) {
    && Within(piece, whole) && Within(rest, whole)
    && if piece.left == rest.left == whole.left && piece.width == rest.width == whole.width
       then piece.height + rest.height == whole.height && (piece.Bottom() == rest.top || rest.Bottom() == piece.top)
       else
         && piece.top == rest.top == whole.top && piece.height == rest.height == whole.height
         && piece.width + rest.width == whole.width && (piece.Right() == rest.left || rest.Right() == piece.left)
  }

  lemma CutParts(whole: Rect, piece: Rect, rest: Rect)
    requires IsCut(whole, piece, rest)
    ensures Apart(piece, rest) && piece.Area() + rest.Area() == whole.Area()
    ensures forall x, y :: whole.Contains(x, y) ==> piece.Contains(x, y) || rest.Contains(x, y)
  {
    assert piece.width == rest.width == whole.width ==>
      piece.width * piece.height + piece.width * rest.height == piece.width * (piece.height + rest.height);
    assert piece.height == rest.height == whole.height ==>
      piece.width * piece.height + rest.width * piece.height == (piece.width + rest.width) * piece.height;
  }

  lemma StaysApart(r: Rect, whole: Rect, part: Rect)
    requires r.Valid() && whole.Valid() && Within(part, whole) && Apart(r, whole)
    ensures Apart(r, part)
  {
  }

  lemma CutKeeps(rs: seq<Rect>, a: Rect, b: Rect, whole: Rect, piece: Rect, rest: Rect)
    requires Pieces(rs, a, b, whole) && Covers(rs, a, whole) && AreasAdd(rs, a, whole)
    requires IsCut(whole, piece, rest) && Apart(piece, b)
    ensures Pieces(rs + [piece], a, b, rest) && Covers(rs + [piece], a, rest)
    ensures AreasAdd(rs + [piece], a, rest)
  {
    hide Apart, IsCut;
    CutParts(whole, piece, rest);
    CutIsWithin(whole, piece, rest);
    var next := rs + [piece];
    forall i | 0 <= i < |rs| ensures Apart(rs[i], piece) && Apart(rs[i], rest) {
      StaysApart(rs[i], whole, piece);
      StaysApart(rs[i], whole, rest);
    }
    assert next[..|next| - 1] == rs;
    assert next[|rs|] == piece;
    forall x, y | a.Contains(x, y) && !rest.Contains(x, y) ensures Covered(next, x, y) {
      if Covered(rs, x, y) {
        var i :| 0 <= i < |rs| && rs[i].Contains(x, y);
        assert next[i] == rs[i];
      } else {
        assert next[|rs|].Contains(x, y);
      }
    }
  }

  lemma CutIsWithin(whole: Rect, piece: Rect, rest: Rect)
    requires IsCut(whole, piece, rest)
    ensures Within(piece, whole) && Within(rest, whole)
  {
  }

  lemma WholeIsLeft(a: Rect, b: Rect)
    requires a.Valid()
    ensures Pieces([], a, b, a) && Covers([], a, a) && AreasAdd([], a, a)
  {
  }

  /** When what is left is the common part, the pieces are the difference. */
  lemma CommonIsLeft(rs: seq<Rect>, a: Rect, b: Rect, rest: Rect)
    requires Pieces(rs, a, b, rest) && Covers(rs, a, rest) && AreasAdd(rs, a, rest)
    requires Intersection(a, b) == Some(rest)
    ensures IsDifference(rs, a, b) && AreaOf(rs) + CommonArea(a, b) == a.Area()
  {
  }

  lemma NothingCommon(a: Rect, b: Rect)
    requires a.Valid() && b.Valid() && CommonArea(a, b) == 0.0
    ensures IsDifference([a], a, b) && AreaOf([a]) + CommonArea(a, b) == a.Area()
  {
    assert [a][..0] == [];
    forall x, y | a.Contains(x, y) ensures Covered([a], x, y) {
      assert [a][0].Contains(x, y);
    }
  }

  lemma NoCommonArea(a: Rect, b: Rect)
    requires Intersection(a, b).None? || Intersection(a, b).value.height == 0.0 || Intersection(a, b).value.width == 0.0
    ensures CommonArea(a, b) == 0.0
  {
  }

  /** The pieces above and below b are as wide as a. */
  predicate IsAcross(r: Rect, a: Rect, b: Rect) {
    && r.left == a.left && r.Right() == a.Right()
    && ((a.top < b.top && r.top == a.top && r.Bottom() == b.top)
        || (b.Bottom() < a.Bottom() && r.top == b.Bottom() && r.Bottom() == a.Bottom()))
  }

  /** Those beside b are as high as the common part. */
  predicate IsBeside(r: Rect, a: Rect, b: Rect) {
    && r.top == Max(a.top, b.top) && r.Bottom() == Min(a.Bottom(), b.Bottom())
    && ((a.left < b.left && r.left == a.left && r.Right() == b.left)
        || (b.Right() < a.Right() && r.left == b.Right() && r.Right() == a.Right()))
  }

  ghost predicate Exactly(rs: seq<Rect>, P: Rect -> bool) {
    forall r :: r in rs <==> P(r)
  }

  /** The pieces above and below b. */
  method CutAcross(a: Rect, b: Rect) returns (c: seq<Rect>, top: real, height: real)
    requires a.Valid() && b.Valid() && b.top <= a.Bottom() && a.top <= b.Bottom()
    ensures top == Max(a.top, b.top) && top + height == Min(a.Bottom(), b.Bottom())
    ensures var rest := Rect(a.left, top, a.width, height);
      Pieces(c, a, b, rest) && Covers(c, a, rest) && AreasAdd(c, a, rest)
    ensures Exactly(c, r => IsAcross(r, a, b))
  {
    hide Pieces, Covers, AreaOf, AreasAdd, Covered;
    c := [];
    WholeIsLeft(a, b);
    top, height := a.top, a.height;
    var bottom, bottom' := a.top + a.height, b.top + b.height;
    if b.top > a.top {
      var piece := Rect(a.left, a.top, a.width, b.top - a.top);
      top, height := b.top, height - (b.top - a.top);
      CutKeeps(c, a, b, a, piece, Rect(a.left, top, a.width, height));
      c := c + [piece];
    }
    if bottom' < bottom {
      var piece := Rect(a.left, bottom', a.width, bottom - bottom');
      ghost var rest := Rect(a.left, top, a.width, height);
      height := bottom' - top;
      CutKeeps(c, a, b, rest, piece, Rect(a.left, top, a.width, height));
      c := c + [piece];
    }
  }

  /** The pieces beside b, and with them the difference. */
  method CutBeside(above: seq<Rect>, a: Rect, b: Rect, top: real, height: real) returns (c: seq<Rect>)
    requires Intersection(a, b).Some? && a.Valid() && b.Valid()
    requires top == Intersection(a, b).value.top && height == Intersection(a, b).value.height
    requires var rest := Rect(a.left, top, a.width, height);
      Pieces(above, a, b, rest) && Covers(above, a, rest) && AreasAdd(above, a, rest)
    ensures IsDifference(c, a, b) && AreaOf(c) + CommonArea(a, b) == a.Area()
    ensures exists beside: seq<Rect> :: c == above + beside && Exactly(beside, r => IsBeside(r, a, b))
  {
    hide Pieces, Covers, IsDifference, AreaOf, AreasAdd, CommonArea, Covered;
    c := above;
    ghost var rest, beside := Rect(a.left, top, a.width, height), [];
    var right, right' := a.left + a.width, b.left + b.width;
    if b.left > a.left {
      var piece := Rect(a.left, top, b.left - a.left, height);
      ghost var next := Rect(b.left, top, right - b.left, height);
      CutKeeps(c, a, b, rest, piece, next);
      c, rest, beside := c + [piece], next, beside + [piece];
    }
    if right' < right {
      var piece := Rect(right', top, right - right', height);
      ghost var next := rest.(width := right' - rest.left);
      CutKeeps(c, a, b, rest, piece, next);
      c, rest, beside := c + [piece], next, beside + [piece];
    }
    CommonIsLeft(c, a, b, rest);
    assert c == above + beside && Exactly(beside, r => IsBeside(r, a, b));
  }

  lemma BothParts(above: seq<Rect>, beside: seq<Rect>, a: Rect, b: Rect)
    requires Exactly(above, r => IsAcross(r, a, b)) && Exactly(beside, r => IsBeside(r, a, b))
    ensures Exactly(above + beside, r => IsAcross(r, a, b) || IsBeside(r, a, b))
  {
    hide IsAcross, IsBeside;
    assert forall r :: r in above + beside <==> r in above || r in beside;
  }

  lemma PartsOfSum(above: seq<Rect>, c: seq<Rect>, a: Rect, b: Rect)
    requires Exactly(above, r => IsAcross(r, a, b))
    requires exists beside: seq<Rect> :: c == above + beside && Exactly(beside, r => IsBeside(r, a, b))
    ensures Exactly(c, r => IsAcross(r, a, b) || IsBeside(r, a, b))
  {
    var beside: seq<Rect> :| c == above + beside && Exactly(beside, r => IsBeside(r, a, b));
    BothParts(above, beside, a, b);
  }

  lemma AreaOfCommon(a: Rect, b: Rect)
    ensures CommonArea(a, b) > 0.0 <==>
      Intersection(a, b).Some? && Intersection(a, b).value.width != 0.0 && Intersection(a, b).value.height != 0.0
  {
    if Intersection(a, b).Some? {
      var c := Intersection(a, b).value;
      assert c.width >= 0.0 && c.height >= 0.0;
      if c.width > 0.0 && c.height > 0.0 {
        assert c.width * c.height > 0.0;
      }
    }
  }

  method Difference(a: Rect, b: Rect) returns (c: seq<Rect>)
    requires a.Valid() && b.Valid()
    ensures IsDifference(c, a, b)
    ensures AreaOf(c) + CommonArea(a, b) == a.Area()
    ensures if CommonArea(a, b) > 0.0 then Exactly(c, r => IsAcross(r, a, b) || IsBeside(r, a, b)) else c == [a]
  {
    AreaOfCommon(a, b);
    hide Pieces, Covers, IsDifference, AreaOf, AreasAdd, CommonArea, Covered;
    var common := Intersection(a, b);
    if common.None? || common.value.height == 0.0 || common.value.width == 0.0 {
      NoCommonArea(a, b);
      NothingCommon(a, b);
      return [a];
    }
    var top, height;
    c, top, height := CutAcross(a, b);
    ghost var above := c;
    c := CutBeside(c, a, b, top, height);
    PartsOfSum(above, c, a, b);
  }
}
