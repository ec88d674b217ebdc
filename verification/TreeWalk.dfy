/** `goog.dom.getNextNode` and `getPreviousNode`: walking a tree in document order. */
module TreeWalk {
  import opened Wrappers

  datatype Tree = Tree(children: seq<Tree>)

  /** A node of a tree, by the positions on the way down from the root. */
  type Node = seq<nat>

  predicate In(t: Tree, p: Node) {
    p == [] || (p[0] < |t.children| && In(t.children[p[0]], p[1..]))
  }

  function At(t: Tree, p: Node): Tree
    requires In(t, p)
  {
    if p == [] then t else At(t.children[p[0]], p[1..])
  }

  // ----- the fields of a node

  function FirstChild(t: Tree, p: Node): Option<Node>
    requires In(t, p)
  {
    if At(t, p).children == [] then None else Some(p + [0])
  }

  function LastChild(t: Tree, p: Node): Option<Node>
    requires In(t, p)
  {
    var n := |At(t, p).children|;
    if n == 0 then None else Some(p + [n - 1])
  }

  function Parent(t: Tree, p: Node): Option<Node> {
    if p == [] then None else Some(p[..|p| - 1])
  }

  function NextSibling(t: Tree, p: Node): Option<Node>
    requires In(t, p)
  {
    if p == [] then None
    else
      var i := p[|p| - 1];
      Up(t, p);
      if i + 1 < |At(t, p[..|p| - 1]).children| then Some(p[..|p| - 1] + [i + 1]) else None
  }

  function PreviousSibling(t: Tree, p: Node): Option<Node> {
    if p == [] || p[|p| - 1] == 0 then None else Some(p[..|p| - 1] + [p[|p| - 1] - 1])
  }

  // ----- document order

  function Size(t: Tree): (n: nat)
    ensures n > 0
  {
    1 + Sizes(t.children)
  }

  function Sizes(ts: seq<Tree>): nat {
    if ts == [] then 0 else Size(ts[0]) + Sizes(ts[1..])
  }

  /** All nodes of a tree, a node before its children, at a node p of some larger tree. */
  function Preorder(t: Tree, p: Node): seq<Node>
    decreases t, 1, 0
  {
    [p] + PreorderFrom(t, p, 0)
  }

  function PreorderFrom(t: Tree, p: Node, i: nat): seq<Node>
    decreases t, 0, |t.children| - i
  {
    if i >= |t.children| then [] else Preorder(t.children[i], p + [i]) + PreorderFrom(t, p, i + 1)
  }

  /** The number of nodes before p in document order. */
  function Index(t: Tree, p: Node): nat
    requires In(t, p)
  {
    if p == [] then 0 else 1 + Sizes(t.children[..p[0]]) + Index(t.children[p[0]], p[1..])
  }

  // ----- the algorithms

  /** The first of the node and its ancestors that has a next sibling gives it. */
  function Climb(t: Tree, p: Node): Option<Node>
    requires In(t, p)
    decreases |p|
  {
    if NextSibling(t, p).Some? then NextSibling(t, p)
    else if p == [] then None
    else
      Up(t, p);
      Climb(t, p[..|p| - 1])
  }

  function Next(t: Tree, p: Node): Option<Node>
    requires In(t, p)
  {
    if FirstChild(t, p).Some? then FirstChild(t, p) else Climb(t, p)
  }

  function Deepest(t: Tree, p: Node): (q: Node)
    requires In(t, p)
    ensures In(t, q)
    decreases At(t, p)
  {
    var n := |At(t, p).children|;
    if n == 0 then p
    else
      Down(t, p, n - 1);
      Deepest(t, p + [n - 1])
  }

  function Previous(t: Tree, p: Node): Option<Node>
    requires In(t, p)
  {
    var s := PreviousSibling(t, p);
    if s.None? then Parent(t, p)
    else
      Up(t, p);
      Down(t, p[..|p| - 1], p[|p| - 1] - 1);
      Some(Deepest(t, s.value))
  }

  // ----- paths

  lemma {:induction false} Descend(t: Tree, p: Node, q: Node)
    ensures p + q != [] && q != [] ==> (p + q)[..|p + q| - 1] == p + q[..|q| - 1]
    ensures In(t, p + q) <==> In(t, p) && In(At(t, p), q)
    ensures In(t, p + q) ==>
      At(t, p + q) == At(At(t, p), q) && Index(t, p + q) == Index(t, p) + Index(At(t, p), q)
    decreases |p|
  {
    if p == [] {
      assert p + q == q;
    } else {
      assert (p + q)[1..] == p[1..] + q;
      if p[0] < |t.children| {
        Descend(t.children[p[0]], p[1..], q);
      }
    }
  }

  lemma Down(t: Tree, p: Node, i: nat)
    requires In(t, p) && i < |At(t, p).children|
    ensures In(t, p + [i]) && At(t, p + [i]) == At(t, p).children[i]
    ensures Index(t, p + [i]) == Index(t, p) + 1 + Sizes(At(t, p).children[..i])
  {
    Descend(t, p, [i]);
    assert [i][1..] == [];
  }

  lemma Up(t: Tree, p: Node)
    requires In(t, p) && p != []
    ensures var q, i := p[..|p| - 1], p[|p| - 1];
      && p == q + [i] && In(t, q) && i < |At(t, q).children|
      && At(t, p) == At(t, q).children[i]
      && Index(t, p) == Index(t, q) + 1 + Sizes(At(t, q).children[..i])
  {
    var q, i := p[..|p| - 1], p[|p| - 1];
    assert p == q + [i];
    Descend(t, q, [i]);
    assert [i][1..] == [];
  }

  lemma {:induction false} SizesLast(ts: seq<Tree>, i: nat)
    requires i < |ts|
    ensures Sizes(ts[..i + 1]) == Sizes(ts[..i]) + Size(ts[i])
  {
    if i == 0 {
      assert ts[..1] == [ts[0]] && ts[..1][1..] == [] && ts[..0] == [];
    } else {
      SizesLast(ts[1..], i - 1);
      assert ts[..i + 1][1..] == ts[1..][..i] && ts[..i][1..] == ts[1..][..i - 1];
    }
  }

  // ----- document order is a numbering of the nodes

  lemma {:induction false} SizesGrow(ts: seq<Tree>, i: nat, j: nat)
    requires i < j <= |ts|
    ensures Sizes(ts[..i]) + Size(ts[i]) <= Sizes(ts[..j])
  {
    if i + 1 < j {
      SizesGrow(ts, i, j - 1);
      SizesLast(ts, j - 1);
    } else {
      SizesLast(ts, i);
    }
  }

  lemma {:induction false} IndexBelow(t: Tree, p: Node)
    requires In(t, p)
    ensures Index(t, p) < Size(t)
  {
    if p != [] {
      var i := p[0];
      IndexBelow(t.children[i], p[1..]);
      SizesGrow(t.children, i, |t.children|);
      assert t.children[..|t.children|] == t.children;
    }
  }

  /** No two nodes have the same number. */
  lemma {:induction false} IndexIsInjective(t: Tree, p: Node, q: Node)
    requires In(t, p) && In(t, q) && Index(t, p) == Index(t, q)
    ensures p == q
  {
    if p != [] && q != [] {
      var i, j := p[0], q[0];
      IndexBelow(t.children[i], p[1..]);
      IndexBelow(t.children[j], q[1..]);
      if i < j {
        SizesGrow(t.children, i, j);
      } else if j < i {
        SizesGrow(t.children, j, i);
      } else {
        IndexIsInjective(t.children[i], p[1..], q[1..]);
      }
      assert p == [i] + p[1..] && q == [j] + q[1..];
    }
  }

  // ----- each step goes to the neighbour in document order

  lemma {:induction false} ClimbPassesSubtree(t: Tree, p: Node)
    requires In(t, p)
    ensures var r := Climb(t, p);
      var n := Index(t, p) + Size(At(t, p));
      if r.Some? then In(t, r.value) && Index(t, r.value) == n else n == Size(t)
    decreases |p|
  {
    if p != [] {
      Up(t, p);
      var q, i := p[..|p| - 1], p[|p| - 1];
      var ts := At(t, q).children;
      SizesLast(ts, i);
      if i + 1 < |ts| {
        Down(t, q, i + 1);
      } else {
        assert ts[..i + 1] == ts;
        ClimbPassesSubtree(t, q);
      }
    }
  }

  lemma {:induction false} DeepestIsLast(t: Tree, p: Node)
    requires In(t, p)
    ensures Index(t, Deepest(t, p)) + 1 == Index(t, p) + Size(At(t, p))
    decreases At(t, p)
  {
    var ts := At(t, p).children;
    if ts != [] {
      var n := |ts|;
      Down(t, p, n - 1);
      DeepestIsLast(t, p + [n - 1]);
      SizesLast(ts, n - 1);
      assert ts[..n] == ts;
    }
  }

  /** The next node is the one numbered one higher; there is none exactly at the last node. */
  lemma NextCounts(t: Tree, p: Node)
    requires In(t, p)
    ensures var r := Next(t, p);
      if r.Some? then In(t, r.value) && Index(t, r.value) == Index(t, p) + 1 else Index(t, p) + 1 == Size(t)
  {
    if At(t, p).children != [] {
      Down(t, p, 0);
    } else {
      ClimbPassesSubtree(t, p);
    }
  }

  /** The previous node is the one numbered one lower; there is none exactly at the root. */
  lemma PreviousCounts(t: Tree, p: Node)
    requires In(t, p)
    ensures var r := Previous(t, p);
      if r.Some? then In(t, r.value) && Index(t, r.value) + 1 == Index(t, p) else p == []
  {
    if p != [] {
      Up(t, p);
      var q, i := p[..|p| - 1], p[|p| - 1];
      if i > 0 {
        Down(t, q, i - 1);
        DeepestIsLast(t, q + [i - 1]);
        SizesLast(At(t, q).children, i - 1);
      } else {
        assert At(t, q).children[..0] == [];
      }
    }
  }

  /** Going forth and back, or back and forth, returns to the node. */
  lemma NextAndPreviousAreInverse(t: Tree, p: Node, q: Node)
    requires In(t, p) && In(t, q)
    ensures Next(t, p) == Some(q) <==> Previous(t, q) == Some(p)
  {
    NextCounts(t, p);
    PreviousCounts(t, q);
    if Next(t, p) == Some(q) {
      IndexIsInjective(t, Previous(t, q).value, p);
    }
    if Previous(t, q) == Some(p) {
      IndexBelow(t, q);
      IndexIsInjective(t, Next(t, p).value, q);
    }
  }

  // ----- the whole walk

  /** The nodes met by calling `getNextNode` until it returns null. */
  function Walk(t: Tree, p: Node): (w: seq<Node>)
    requires In(t, p)
    ensures forall q :: q in w ==> In(t, q)
    decreases Size(t) - Index(t, p)
  {
    NextCounts(t, p);
    IndexBelow(t, p);
    var r := Next(t, p);
    if r.None? then [p]
    else
      IndexBelow(t, r.value);
      [p] + Walk(t, r.value)
  }

  lemma {:induction false} WalkCounts(t: Tree, p: Node)
    requires In(t, p)
    ensures var w := Walk(t, p);
      && Index(t, p) + |w| == Size(t)
      && forall i :: 0 <= i < |w| ==> Index(t, w[i]) == Index(t, p) + i
    decreases Size(t) - Index(t, p)
  {
    NextCounts(t, p);
    IndexBelow(t, p);
    var r := Next(t, p);
    if r.Some? {
      IndexBelow(t, r.value);
      WalkCounts(t, r.value);
    }
  }

  lemma {:induction false} PreorderCounts(t: Tree, top: Tree, p: Node)
    requires In(top, p) && At(top, p) == t
    ensures var w := Preorder(t, p);
      && |w| == Size(t)
      && forall i :: 0 <= i < |w| ==> In(top, w[i]) && Index(top, w[i]) == Index(top, p) + i
    decreases t, 1, 0
  {
    PreorderFromCounts(t, top, p, 0);
    assert t.children[..0] == [];
    assert t.children[0..] == t.children;
  }

  lemma {:induction false} PreorderFromCounts(t: Tree, top: Tree, p: Node, i: nat)
    requires In(top, p) && At(top, p) == t && i <= |t.children|
    ensures var w := PreorderFrom(t, p, i);
      && |w| == Sizes(t.children[i..])
      && forall j :: 0 <= j < |w| ==>
        In(top, w[j]) && Index(top, w[j]) == Index(top, p) + 1 + Sizes(t.children[..i]) + j
    decreases t, 0, |t.children| - i
  {
    if i < |t.children| {
      Down(top, p, i);
      PreorderCounts(t.children[i], top, p + [i]);
      PreorderFromCounts(t, top, p, i + 1);
      SizesLast(t.children, i);
      assert t.children[i..][1..] == t.children[i + 1..];
    }
  }

  /** From the root the walk is the preorder traversal, so it visits every node exactly once
      and ends. */
  lemma WalkIsPreorder(t: Tree)
    ensures Walk(t, []) == Preorder(t, [])
    ensures forall p :: In(t, p) ==> Index(t, p) < |Walk(t, [])| && Walk(t, [])[Index(t, p)] == p
    ensures forall i, j :: 0 <= i < j < |Walk(t, [])| ==> Walk(t, [])[i] != Walk(t, [])[j]
  {
    WalkCounts(t, []);
    PreorderCounts(t, t, []);
    var w, v := Walk(t, []), Preorder(t, []);
    forall i | 0 <= i < |w| ensures w[i] == v[i] {
      IndexIsInjective(t, w[i], v[i]);
    }
    forall p | In(t, p) ensures Index(t, p) < |w| && w[Index(t, p)] == p {
      IndexBelow(t, p);
      IndexIsInjective(t, w[Index(t, p)], p);
    }
  }

  // ----- the loops

  method GetNextNode(t: Tree, start: Option<Node>) returns (r: Option<Node>)
    requires start.Some? ==> In(t, start.value)
    ensures r == if start.None? then None else Next(t, start.value)
  {
    var a := start;
    if a.None? {
      return None;
    }
    r := FirstChild(t, a.value);
    if r.Some? {
      return;
    }
    while a.Some? && NextSibling(t, a.value).None?
      invariant a.Some? ==> In(t, a.value)
      invariant Next(t, start.value) == if a.Some? then Climb(t, a.value) else None
      decreases if a.Some? then 1 + |a.value| else 0
    {
      if a.value != [] {
        Up(t, a.value);
      }
      a := Parent(t, a.value);
    }
    r := if a.Some? then NextSibling(t, a.value) else None;
  }

  method GetPreviousNode(t: Tree, start: Option<Node>) returns (r: Option<Node>)
    requires start.Some? ==> In(t, start.value)
    ensures r == if start.None? then None else Previous(t, start.value)
  {
    if start.None? {
      return None;
    }
    var a := PreviousSibling(t, start.value);
    if a.None? {
      return Parent(t, start.value);
    }
    Up(t, start.value);
    Down(t, start.value[..|start.value| - 1], start.value[|start.value| - 1] - 1);
    r := a;
    while LastChild(t, r.value).Some?
      invariant r.Some? && In(t, r.value)
      invariant Deepest(t, a.value) == Deepest(t, r.value)
      decreases At(t, r.value)
    {
      Down(t, r.value, |At(t, r.value).children| - 1);
      r := LastChild(t, r.value);
    }
  }
}
