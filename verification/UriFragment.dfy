/** The text of a URL before and after its first hash once a parameter has been removed, appended
    or set. */
module UriFragment {
  import opened UriParams
  import opened UriPieces
  import opened UriEdits

  /** The text from the first hash on. */
  function Fragment(u: string): string {
    u[HashOrEnd(u)..]
  }

  function BeforeFragment(u: string): string {
    u[..HashOrEnd(u)]
  }

  predicate EndsOpen(t: string) {
    t != "" && t[|t| - 1] in {'?', '&'}
  }

  lemma Parts(t: string, f: string)
    requires '#' !in t && IsFragment(f)
    ensures BeforeFragment(t + f) == t && Fragment(t + f) == f
  {
    hide HashOrEnd;
    HashAfter(t, f);
  }

  lemma FragmentIs(u: string)
    ensures IsFragment(Fragment(u))
  {
    hide Shape, Quiet;
    WholeShape(u, "");
  }

  lemma DropsOne(f: string)
    ensures var r := TrailingPunctuation(f);
      DropPunctuation(f) == (if r < 0 then f else f[..r] + f[r + 1..]) && (DropPunctuation(f) == f <==> r < 0)
  {
    hide TrailingPunctuation;
    if TrailingPunctuation(f) >= 0 {
      assert |DropPunctuation(f)| == |f| - 1;
    }
  }

  /** Dropping looks for the first delimiter at an end or before a hash. */
  lemma DropsFirst(f: string)
    ensures DropPunctuation(f) == f <==> forall i: nat :: !Punctuates(f, i)
    ensures forall i: nat :: FirstPunctuation(f, i) ==> DropPunctuation(f) == f[..i] + f[i + 1..]
  {
    hide Punctuates, TrailingPunctuation, DropPunctuation;
    TrailingIsFirst(f, 0);
    DropsOne(f);
    var r := TrailingPunctuation(f);
    forall i: nat | FirstPunctuation(f, i) ensures r == i {
      assert Punctuates(f, i);
    }
  }

  /** On every URL `removeParam` leaves the pieces left, without one delimiter at their end, and
      the fragment as it was. Only when the pieces do not end with a delimiter and the fragment
      has one at its end or before a hash, it is the first of these that goes. */
  lemma RemovedText(u: string, k: string)
    requires KeyOk(k)
    ensures var t, f, w := Text(LeftOf(u, k)), Fragment(u), RemoveParam(u, k);
      && BeforeFragment(w) == Chop(t)
      && (Fragment(w) == f <==> EndsOpen(t) || forall i: nat :: !Punctuates(f, i))
      && (!EndsOpen(t) ==> forall i: nat :: FirstPunctuation(f, i) ==> Fragment(w) == f[..i] + f[i + 1..])
  {
    hide HashOrEnd, DropPunctuation, Kept, Left, Shape, PiecesOf, IsPiece, AreNext, ArePieces, KeyOk, Punctuates;
    hide RemoveParam, Text;
    var ps, t, f := PiecesOf(u), Text(LeftOf(u, k)), Fragment(u);
    FragmentIs(u);
    RemoveDrops(u, k);
    LeftOfPieces(u, k);
    assert [ps[0]] + ps[1..] == ps;
    TextHasNoHash(LeftOf(u, k));
    ChopHasNoHash(t);
    if EndsOpen(t) {
      DropsFromQuery(t, f);
      Parts(Chop(t), f);
    } else {
      DropsFromFragment(t, f);
      DropsFirst(f);
      Parts(t, DropPunctuation(f));
    }
  }

  lemma ChopHasNoHash(t: string)
    requires '#' !in t
    ensures '#' !in Chop(t)
  {
  }

  /** `appendParam` writes the parameter between the two parts. */
  lemma AppendedText(u: string, k: string, v: string)
    requires KeyOk(k) && Free(v)
    ensures var t, w := BeforeFragment(u), AppendParam(u, k, v);
      && BeforeFragment(w) == t + (if MarkInside(t) then "&" else if EndsWithMark(t) then "" else "?") + (k + "=" + v)
      && Fragment(w) == Fragment(u)
  {
    hide HashOrEnd, AppendParam, KeyOk, Free, MarkInside, Joint;
    var t, f := BeforeFragment(u), Fragment(u);
    FragmentIs(u);
    BeforeHasNoHash(u);
    assert u == t + f;
    AppendText(t, f, k, v);
    JointIs(t);
    FreeParam(k, v);
    NoHash(t, Joint(t), k + "=" + v);
    Parts(t + Joint(t) + (k + "=" + v), f);
  }

  lemma BeforeHasNoHash(u: string)
    ensures '#' !in BeforeFragment(u)
  {
    OccurrencesOfChar(u, '#');
  }

  lemma NoHash(t: string, j: string, kv: string)
    requires '#' !in t && j in {"&", "?", ""} && Free(kv)
    ensures '#' !in t + j + kv
  {
  }

  /** `setParam` leaves the fragment alone exactly when `removeParam` does, and writes the
      parameter behind the pieces left. */
  lemma SetText(u: string, k: string, v: string)
    requires KeyOk(k) && Free(v)
    ensures var t, f, w := Text(LeftOf(u, k)), Fragment(u), SetParam(u, k, v);
      && (Fragment(w) == f <==> EndsOpen(t) || forall i: nat :: !Punctuates(f, i))
      && (!EndsOpen(t) ==> forall i: nat :: FirstPunctuation(f, i) ==> Fragment(w) == f[..i] + f[i + 1..])
      && BeforeFragment(w) == Chop(t)
        + (if MarkInside(Chop(t)) then "&" else if EndsWithMark(Chop(t)) then "" else "?") + (k + "=" + v)
  {
    hide HashOrEnd, RemoveParam, AppendParam, KeyOk, Free, MarkInside, Text, LeftOf, Punctuates, Fragment, BeforeFragment;
    RemovedText(u, k);
    AppendedText(RemoveParam(u, k), k, v);
  }

  /** Removing any parameter takes the question mark at the end of this fragment away. */
  lemma FragmentLosesMark(k: string)
    requires KeyOk(k)
    ensures RemoveParam("/p#a?", k) == "/p#a" && Fragment("/p#a?") == "#a?" && Fragment("/p#a") == "#a"
  {
    hide HashOrEnd, FindParam, KeyOk;
    var u := "/p#a?";
    assert u == "/p" + "#a?" && "/p#a" == "/p" + "#a";
    Parts("/p", "#a?");
    Parts("/p", "#a");
    assert |BeforeFragment(u)| == 2;
    FindsFirst(u, 0, k, HashOrEnd(u));
    assert FindParam(u, 0, k, HashOrEnd(u)) < 0;
    assert KeptFrom(u, k, 0) == u[0..] == u;
    assert TrailingPunctuation(u) == 4 by {
      TrailingIsFirst(u, 0);
      assert Punctuates(u, 4);
    }
    assert u[..4] + u[5..] == "/p#a";
  }
}
