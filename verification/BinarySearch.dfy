/** `goog.array.binarySearch`, `binaryInsert` and `binaryRemove`. */
module BinarySearch {
  import opened Numbers

  /** What the comparator promises: equal elements need not be identical. */
  ghost predicate TotalPreorder<T(!new)>(cmp: (T, T) -> int) {
    && (forall x, y :: cmp(x, y) > 0 <==> cmp(y, x) < 0)
    && (forall x, y, z :: cmp(x, y) <= 0 && cmp(y, z) <= 0 ==> cmp(x, z) <= 0)
  }

  ghost predicate Sorted<T(!new)>(a: seq<T>, cmp: (T, T) -> int) {
    forall i, j :: 0 <= i < j < |a| ==> cmp(a[i], a[j]) <= 0
  }

  ghost predicate StrictlySorted<T(!new)>(a: seq<T>, cmp: (T, T) -> int) {
    forall i, j :: 0 <= i < j < |a| ==> cmp(a[i], a[j]) < 0
  }

  // ----- searching one by one, as the reference

  function FirstNotBelow<T>(a: seq<T>, x: T, cmp: (T, T) -> int): (f: nat)
    ensures f <= |a|
    ensures forall i :: 0 <= i < f ==> cmp(x, a[i]) > 0
    ensures f < |a| ==> cmp(x, a[f]) <= 0
  {
    if a == [] || cmp(x, a[0]) <= 0 then 0 else 1 + FirstNotBelow(a[1..], x, cmp)
  }

  /** The leftmost match, or the complement of the insertion point. */
  function Found<T>(a: seq<T>, x: T, cmp: (T, T) -> int): int {
    var f: int := FirstNotBelow(a, x, cmp);
    if f < |a| && cmp(x, a[f]) == 0 then f else -f - 1
  }

  // ----- signed 32-bit arithmetic

  /** `x>>1` */
  function ShiftRight(x: int): int {
    ToInt32(x) / 2
  }

  /** `~x` */
  function Complement(x: int): int {
    -ToInt32(x) - 1
  }

  /** The longest array whose index sums fit: 2 * length - 1 below 2^31. */
  const MAX_LENGTH := 0x4000_0000

  lemma Middle(f: nat, g: nat)
    requires f < g <= MAX_LENGTH
    ensures f <= ShiftRight(f + g) < g
  {
  }

  lemma NotBelow(f: int)
    requires 0 <= f <= MAX_LENGTH
    ensures Complement(f) == -f - 1
  {
  }

  /** What one comparison says about the rest of the array. */
  lemma Halves<T(!new)>(a: seq<T>, x: T, cmp: (T, T) -> int, i: nat)
    requires TotalPreorder(cmp) && Sorted(a, cmp) && i < |a|
    ensures cmp(x, a[i]) > 0 ==> forall k :: 0 <= k < i ==> cmp(x, a[k]) > 0
    ensures cmp(x, a[i]) <= 0 ==> forall k :: i < k < |a| ==> cmp(x, a[k]) <= 0
  {
    forall k | 0 <= k < i && cmp(x, a[i]) > 0 ensures cmp(x, a[k]) > 0 {
      assert cmp(a[k], a[i]) <= 0;
    }
    forall k | i < k < |a| && cmp(x, a[i]) <= 0 ensures cmp(x, a[k]) <= 0 {
      assert cmp(a[i], a[k]) <= 0;
    }
  }

  /** The binary search agrees with the linear one. */
  method Search<T(!new)>(a: seq<T>, x: T, cmp: (T, T) -> int) returns (r: int)
    requires TotalPreorder(cmp) && Sorted(a, cmp) && |a| <= MAX_LENGTH
    ensures r == Found(a, x, cmp)
  {
    hide TotalPreorder, Sorted, ShiftRight, Complement;
    var f, g := 0, |a|;
    var h := false;
    while f < g
      invariant 0 <= f <= g <= |a|
      invariant forall i :: 0 <= i < f ==> cmp(x, a[i]) > 0
      invariant forall i :: g <= i < |a| ==> cmp(x, a[i]) <= 0
      invariant h <==> g < |a| && cmp(x, a[g]) == 0
    {
      Middle(f, g);
      var i := ShiftRight(f + g);
      var j := cmp(x, a[i]);
      Halves(a, x, cmp, i);
      if j > 0 {
        f := i + 1;
      } else {
        g, h := i, j == 0;
      }
    }
    assert f == FirstNotBelow(a, x, cmp);
    NotBelow(f);
    r := if h then f else Complement(f);
  }

  /** What the result means on sorted arrays. */
  lemma FoundMeans<T(!new)>(a: seq<T>, x: T, cmp: (T, T) -> int)
    requires TotalPreorder(cmp) && Sorted(a, cmp)
    ensures var r := Found(a, x, cmp);
      if r >= 0 then r < |a| && cmp(x, a[r]) == 0 && forall i :: 0 <= i < r ==> cmp(a[i], x) < 0
      else
        var f := -(r + 1);
        && 0 <= f <= |a|
        && (forall i :: 0 <= i < f ==> cmp(a[i], x) < 0)
        && (forall i :: f <= i < |a| ==> cmp(x, a[i]) < 0)
  {
    var f := FirstNotBelow(a, x, cmp);
    forall i | f < i < |a| && cmp(x, a[f]) < 0 ensures cmp(x, a[i]) < 0 {
      Strict(a, x, cmp, f, i);
    }
  }

  lemma Strict<T(!new)>(a: seq<T>, x: T, cmp: (T, T) -> int, f: nat, i: nat)
    requires TotalPreorder(cmp) && Sorted(a, cmp) && f < i < |a| && cmp(x, a[f]) < 0
    ensures cmp(x, a[i]) < 0
  {
    var low, high := a[f], a[i];
    assert cmp(low, high) <= 0 && cmp(low, x) > 0;
    assert cmp(high, x) > 0;
  }

  // ----- inserting and removing

  function Inserted<T>(a: seq<T>, x: T, cmp: (T, T) -> int): seq<T> {
    var r := Found(a, x, cmp);
    if r < 0 then a[..-(r + 1)] + [x] + a[-(r + 1)..] else a
  }

  function Removed<T>(a: seq<T>, x: T, cmp: (T, T) -> int): seq<T> {
    var r := Found(a, x, cmp);
    if r >= 0 then a[..r] + a[r + 1..] else a
  }

  ghost predicate Has<T(!new)>(s: set<T>, x: T, cmp: (T, T) -> int) {
    exists y :: y in s && cmp(x, y) == 0
  }

  ghost function Elements<T(!new)>(a: seq<T>): set<T> {
    set i | 0 <= i < |a| :: a[i]
  }

  lemma FoundIffHas<T(!new)>(a: seq<T>, x: T, cmp: (T, T) -> int)
    requires TotalPreorder(cmp) && Sorted(a, cmp)
    ensures Found(a, x, cmp) >= 0 <==> Has(Elements(a), x, cmp)
  {
    FoundMeans(a, x, cmp);
    var r := Found(a, x, cmp);
    if r >= 0 {
      assert a[r] in Elements(a);
    }
  }

  lemma InsertAt<T(!new)>(a: seq<T>, x: T, cmp: (T, T) -> int, f: nat)
    requires StrictlySorted(a, cmp) && f <= |a|
    requires forall i :: 0 <= i < f ==> cmp(a[i], x) < 0
    requires forall i :: f <= i < |a| ==> cmp(x, a[i]) < 0
    ensures StrictlySorted(a[..f] + [x] + a[f..], cmp)
    ensures Elements(a[..f] + [x] + a[f..]) == Elements(a) + {x}
  {
    var b := a[..f] + [x] + a[f..];
    forall i, j | 0 <= i < j < |b| ensures cmp(b[i], b[j]) < 0 {
      assert b[i] == if i < f then a[i] else if i == f then x else a[i - 1];
      assert b[j] == if j < f then a[j] else if j == f then x else a[j - 1];
    }
    ElementsWith(a, x, f);
  }

  lemma ElementsWith<T(!new)>(a: seq<T>, x: T, f: nat)
    requires f <= |a|
    ensures Elements(a[..f] + [x] + a[f..]) == Elements(a) + {x}
  {
    var b := a[..f] + [x] + a[f..];
    assert b[f] == x;
    assert forall i :: 0 <= i < |a| ==> a[i] == b[if i < f then i else i + 1];
  }

  lemma RemoveAt<T(!new)>(a: seq<T>, cmp: (T, T) -> int, r: nat)
    requires StrictlySorted(a, cmp) && r < |a|
    ensures StrictlySorted(a[..r] + a[r + 1..], cmp)
    ensures Elements(a[..r] + a[r + 1..]) == set i | 0 <= i < |a| && i != r :: a[i]
  {
    var b := a[..r] + a[r + 1..];
    forall i, j | 0 <= i < j < |b| ensures cmp(b[i], b[j]) < 0 {
      assert b[i] == a[if i < r then i else i + 1] && b[j] == a[if j < r then j else j + 1];
    }
    assert forall i :: 0 <= i < |b| ==> b[i] == a[if i < r then i else i + 1];
    assert forall i :: 0 <= i < |a| && i != r ==> a[i] == b[if i < r then i else i - 1];
  }

  lemma InsertedKeeps<T(!new)>(a: seq<T>, x: T, cmp: (T, T) -> int)
    requires TotalPreorder(cmp) && Sorted(a, cmp) && StrictlySorted(a, cmp)
    ensures StrictlySorted(Inserted(a, x, cmp), cmp)
    ensures Elements(Inserted(a, x, cmp)) == if Has(Elements(a), x, cmp) then Elements(a) else Elements(a) + {x}
  {
    hide TotalPreorder, Sorted, StrictlySorted, Elements, Has, Found;
    FoundMeans(a, x, cmp);
    FoundIffHas(a, x, cmp);
    var r := Found(a, x, cmp);
    if r < 0 {
      InsertAt(a, x, cmp, -(r + 1));
    }
  }

  lemma RemovedKeeps<T(!new)>(a: seq<T>, x: T, cmp: (T, T) -> int)
    requires TotalPreorder(cmp) && Sorted(a, cmp) && StrictlySorted(a, cmp)
    ensures StrictlySorted(Removed(a, x, cmp), cmp)
    ensures Elements(Removed(a, x, cmp)) == set y | y in Elements(a) && cmp(x, y) != 0
  {
    hide TotalPreorder, Sorted, StrictlySorted, Found;
    FoundMeans(a, x, cmp);
    FoundIffHas(a, x, cmp);
    var r := Found(a, x, cmp);
    if r >= 0 {
      OnlyMatch(a, x, cmp, r);
      RemoveAt(a, cmp, r);
    }
  }

  lemma StrictIsSorted<T(!new)>(a: seq<T>, cmp: (T, T) -> int)
    requires StrictlySorted(a, cmp)
    ensures Sorted(a, cmp)
  {
  }

  lemma OnlyMatch<T(!new)>(a: seq<T>, x: T, cmp: (T, T) -> int, r: nat)
    requires TotalPreorder(cmp) && StrictlySorted(a, cmp) && r < |a| && cmp(x, a[r]) == 0
    ensures forall i :: 0 <= i < |a| && cmp(x, a[i]) == 0 ==> i == r
  {
    forall i | 0 <= i < |a| && cmp(x, a[i]) == 0 ensures i == r {
      assert cmp(a[r], x) <= 0 && cmp(a[i], x) <= 0;
      assert cmp(a[r], a[i]) <= 0 && cmp(a[i], a[r]) <= 0;
    }
  }

  // ----- runs

  datatype Op<T> = Insert(item: T) | Remove(item: T)

  function RunArray<T>(ops: seq<Op<T>>, cmp: (T, T) -> int): (a: seq<T>)
    ensures |a| <= |ops|
  {
    if ops == [] then []
    else
      var a := RunArray(ops[..|ops| - 1], cmp);
      match ops[|ops| - 1]
      case Insert(x) => Inserted(a, x, cmp)
      case Remove(x) => Removed(a, x, cmp)
  }

  /** The mathematical set: at most one of several equal elements, the one that came first. */
  ghost function RunSet<T(!new)>(ops: seq<Op<T>>, cmp: (T, T) -> int): set<T> {
    if ops == [] then {}
    else
      var s := RunSet(ops[..|ops| - 1], cmp);
      match ops[|ops| - 1]
      case Insert(x) => if Has(s, x, cmp) then s else s + {x}
      case Remove(x) => set y | y in s && cmp(x, y) != 0
  }

  /** Any run from the empty array keeps it strictly sorted, with exactly the set's elements. */
  lemma {:induction false} RunRefinesSet<T(!new)>(ops: seq<Op<T>>, cmp: (T, T) -> int)
    requires TotalPreorder(cmp)
    ensures StrictlySorted(RunArray(ops, cmp), cmp)
    ensures Elements(RunArray(ops, cmp)) == RunSet(ops, cmp)
  {
    if ops != [] {
      RunRefinesSet(ops[..|ops| - 1], cmp);
      var a := RunArray(ops[..|ops| - 1], cmp);
      StrictIsSorted(a, cmp);
      match ops[|ops| - 1]
      case Insert(x) => InsertedKeeps(a, x, cmp);
      case Remove(x) => RemovedKeeps(a, x, cmp);
    }
  }

  class SortedArray<T(!new)> {
    var a: seq<T>
    const cmp: (T, T) -> int

    ghost predicate Valid()
      reads this
    {
      TotalPreorder(cmp) && StrictlySorted(a, cmp)
    }

    constructor (cmp: (T, T) -> int)
      requires TotalPreorder(cmp)
      ensures Valid() && this.cmp == cmp && a == []
    {
      this.cmp := cmp;
      a := [];
    }

    method BinaryInsert(x: T) returns (changed: bool)
      requires Valid() && |a| <= MAX_LENGTH
      modifies this
      ensures Valid() && a == Inserted(old(a), x, cmp)
      ensures changed <==> !Has(Elements(old(a)), x, cmp)
    {
      StrictIsSorted(a, cmp);
      InsertedKeeps(a, x, cmp);
      FoundIffHas(a, x, cmp);
      var r := Search(a, x, cmp);
      if r < 0 {
        a := a[..-(r + 1)] + [x] + a[-(r + 1)..];
      }
      changed := r < 0;
    }

    method BinaryRemove(x: T) returns (changed: bool)
      requires Valid() && |a| <= MAX_LENGTH
      modifies this
      ensures Valid() && a == Removed(old(a), x, cmp)
      ensures changed <==> Has(Elements(old(a)), x, cmp)
    {
      StrictIsSorted(a, cmp);
      RemovedKeeps(a, x, cmp);
      FoundIffHas(a, x, cmp);
      var r := Search(a, x, cmp);
      if r >= 0 {
        a := a[..r] + a[r + 1..];
      }
      changed := r >= 0;
    }
  }
}
