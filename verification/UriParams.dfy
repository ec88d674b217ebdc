/** The query parameter functions of `goog.uri.utils`, on encoded text. The loops are written
    as recursive functions here; UriMethods.dfy has them as loops. */
module UriParams {
  // ----- searching

  predicate OccursAt(a: string, k: string, i: int) {
    0 <= i && i + |k| <= |a| && a[i..i + |k|] == k
  }

  /** `a.indexOf(k, from)` */
  function IndexOf(a: string, k: string, from: nat): (r: int)
    ensures r == -1 || OccursAt(a, k, r)
    ensures r >= 0 && from <= |a| ==> from <= r
    ensures forall i :: from <= i && OccursAt(a, k, i) ==> 0 <= r <= i
    decreases |a| - from
  {
    if from > |a| then (if k == "" then |a| else -1)
    else if from + |k| > |a| then -1
    else if a[from..from + |k|] == k then from
    else IndexOf(a, k, from + 1)
  }

  lemma OccurrencesOfChar(a: string, c: char)
    ensures forall i :: OccursAt(a, [c], i) <==> 0 <= i < |a| && a[i] == c
  {
    forall i | 0 <= i < |a| ensures OccursAt(a, [c], i) <==> a[i] == c {
      assert a[i..i + 1] == [a[i]];
    }
  }

  /** `a.search(/#|$/)` */
  function HashOrEnd(a: string): (c: nat)
    ensures c <= |a|
  {
    var i := IndexOf(a, "#", 0);
    if i < 0 then |a| else i
  }

  /** What `findParam_` accepts after the key. Past the end the character code is NaN; there
      and at code 0 it is false. */
  predicate EndsKey(a: string, i: nat) {
    i >= |a| || a[i] in {'\0', '=', '&', '#'}
  }

  predicate IsParamAt(a: string, k: string, b: nat) {
    && 0 < b && OccursAt(a, k, b)
    && a[b - 1] in {'&', '?'} && EndsKey(a, b + |k|)
  }

  /** `findParam_`: after a miss the search goes on behind the key and one more character. */
  function FindParam(a: string, b: nat, k: string, d: nat): (r: int)
    requires d <= |a|
    ensures -1 <= r
    decreases |a| + 1 - b
  {
    var i := IndexOf(a, k, b);
    if i < 0 || i >= d || b > |a| then -1
    else if IsParamAt(a, k, i) then i
    else FindParam(a, i + |k| + 1, k, d)
  }

  predicate KeyOk(k: string) {
    k != "" && forall i :: 0 <= i < |k| ==> k[i] !in {'&', '?', '#', '=', '\0'}
  }

  /** There is no delimiter inside an occurrence of a key. */
  lemma KeyHasNoDelimiter(a: string, k: string, e: nat)
    requires KeyOk(k) && OccursAt(a, k, e)
    ensures forall j :: e <= j < e + |k| ==> a[j] !in {'&', '?', '#', '=', '\0'}
  {
    forall j | e <= j < e + |k| ensures a[j] !in {'&', '?', '#', '=', '\0'} {
      assert a[j] == a[e..e + |k|][j - e];
    }
  }

  /** No parameter starts before the first occurrence, nor in or right behind it. */
  lemma NoneUpTo(a: string, b: nat, k: string)
    requires KeyOk(k)
    ensures var i := IndexOf(a, k, b);
      forall j :: b <= j && (i >= 0 ==> j <= i + |k| && j != i) ==> !IsParamAt(a, k, j)
  {
    var i := IndexOf(a, k, b);
    if i >= 0 {
      KeyHasNoDelimiter(a, k, i);
    }
    hide IndexOf, EndsKey, KeyOk;
  }

  /** The skip jumps over no parameter: the result is the first one at b or later. */
  lemma {:induction false} FindsFirst(a: string, b: nat, k: string, d: nat)
    requires KeyOk(k) && d <= |a|
    ensures var r := FindParam(a, b, k, d);
      && (r >= 0 ==> b <= r < d && IsParamAt(a, k, r))
      && (forall j :: b <= j < (if r >= 0 then r else d) ==> !IsParamAt(a, k, j))
    decreases |a| + 1 - b
  {
    hide IsParamAt, KeyOk, IndexOf, OccursAt;
    NoneUpTo(a, b, k);
    var i := IndexOf(a, k, b);
    if i >= 0 && i < d && b <= |a| && !IsParamAt(a, k, i) {
      FindsFirst(a, i + |k| + 1, k, d);
    }
  }

  // ----- reading and removing

  /** The end of a parameter: the next ampersand, but not past c. */
  function ParamEnd(a: string, e: nat, c: nat): (d: nat)
    ensures d <= c
  {
    var i := IndexOf(a, "&", e);
    if i < 0 || i > c then c else i
  }

  /** `a.substr(from, n)` with n possibly negative */
  function Substr(a: string, from: nat, n: int): string {
    if from >= |a| || n <= 0 then ""
    else if from + n >= |a| then a[from..]
    else a[from..from + n]
  }

  lemma ParamEndIsAfter(a: string, e: nat, k: string, c: nat)
    requires KeyOk(k) && c <= |a| && IsParamAt(a, k, e) && e < c && c == HashOrEnd(a)
    ensures e + |k| <= ParamEnd(a, e, c)
  {
    KeyHasNoDelimiter(a, k, e);
    var i := IndexOf(a, "&", e);
    assert i >= 0 ==> a[i..i + 1][0] == a[i];
    assert c < |a| ==> a[c..c + 1][0] == a[c];
  }

  /** The loop of `getParamValues` from position d on, before decoding. */
  function ValuesFrom(a: string, k: string, d: nat): seq<string>
    requires KeyOk(k) && d <= HashOrEnd(a)
    decreases |a| - d
  {
    var c := HashOrEnd(a);
    var e := FindParam(a, d, k, c);
    if e < 0 then []
    else
      FindsFirst(a, d, k, c);
      ParamEndIsAfter(a, e, k, c);
      var d' := ParamEnd(a, e, c);
      var from := e + |k| + 1;
      [Substr(a, from, d' - from)] + ValuesFrom(a, k, d')
  }

  /** The key must not be empty: on an empty parameter the loop would not end. */
  function GetParamValues(a: string, k: string): seq<string>
    requires KeyOk(k)
  {
    ValuesFrom(a, k, 0)
  }

  /** The loop of `removeParam` from position d on. */
  function KeptFrom(a: string, k: string, d: nat): string
    requires KeyOk(k) && d <= HashOrEnd(a)
    decreases |a| - d
  {
    var c := HashOrEnd(a);
    var e := FindParam(a, d, k, c);
    if e < 0 then a[d..]
    else
      FindsFirst(a, d, k, c);
      ParamEndIsAfter(a, e, k, c);
      var i := IndexOf(a, "&", e);
      var d' := if i < 0 || i + 1 > c then c else i + 1;
      a[d..e] + KeptFrom(a, k, d')
  }

  /** What `/[?&]($|#)/` matches. */
  predicate Punctuates(a: string, i: nat) {
    i < |a| && a[i] in {'?', '&'} && (i + 1 == |a| || a[i + 1] == '#')
  }

  /** The position of the first match, or -1. */
  function TrailingPunctuation(a: string, from: nat := 0): (r: int)
    ensures -1 <= r < |a|
    ensures r >= 0 ==> from <= r && Punctuates(a, r)
    decreases |a| - from
  {
    if from >= |a| then -1
    else if Punctuates(a, from) then from
    else TrailingPunctuation(a, from + 1)
  }

  lemma {:induction false} TrailingIsFirst(a: string, from: nat)
    ensures var r := TrailingPunctuation(a, from);
      forall i: nat :: from <= i && (r < 0 || i < r) ==> !Punctuates(a, i)
    decreases |a| - from
  {
    if from < |a| && !Punctuates(a, from) {
      TrailingIsFirst(a, from + 1);
    }
  }

  function DropPunctuation(a: string): string {
    var i := TrailingPunctuation(a);
    if i < 0 then a else a[..i] + a[i + 1..]
  }

  function RemoveParam(a: string, k: string): string
    requires KeyOk(k)
  {
    DropPunctuation(KeptFrom(a, k, 0))
  }

  /** `appendParam`, on an encoded value: before the fragment, after `?`, `&` or nothing. */
  function AppendParam(a: string, k: string, v: string): string {
    var i := IndexOf(a, "#", 0);
    var b := if i < 0 then a else a[..i];
    var fragment := if i < 0 then "" else a[i..];
    var q := IndexOf(b, "?", 0);
    b + (if q < 0 then "?" else if q == |b| - 1 then "" else "&") + k + "=" + v + fragment
  }

  function SetParam(a: string, k: string, v: string): string
    requires KeyOk(k)
  {
    AppendParam(RemoveParam(a, k), k, v)
  }
}
