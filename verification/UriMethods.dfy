/** The query parameter functions of `goog.uri.utils` as the loops they are. */
module UriMethods {
  import opened UriParams

  lemma SearchGoesOn(a: string, b: nat, k: string, d: nat)
    requires d <= |a|
    ensures var i := IndexOf(a, k, b);
      if i < 0 || i >= d || b > |a| then FindParam(a, b, k, d) == -1
      else
        && i + |k| <= |a|
        && FindParam(a, b, k, d) == if 0 < i && a[i - 1] in {'&', '?'} && EndsKey(a, i + |k|) then i
          else FindParam(a, i + |k| + 1, k, d)
  {
    hide EndsKey;
  }

  method FindParamLoop(a: string, start: nat, k: string, d: nat) returns (r: int)
    requires d <= |a|
    ensures r == FindParam(a, start, k, d)
  {
    hide FindParam, EndsKey, OccursAt, IndexOf;
    var b := start;
    var e := |k|;
    var i := IndexOf(a, k, b);
    while i >= 0 && i < d && b <= |a|
      invariant i == IndexOf(a, k, b)
      invariant FindParam(a, start, k, d) == FindParam(a, b, k, d)
      decreases |a| + 1 - b
    {
      SearchGoesOn(a, b, k, d);
      if 0 < i && a[i - 1] in {'&', '?'} {
        if EndsKey(a, i + e) {
          return i;
        }
      }
      b := i + e + 1;
      i := IndexOf(a, k, b);
    }
    SearchGoesOn(a, b, k, d);
    return -1;
  }

  lemma {:induction false} ValuesStep(f: seq<string>, a: string, k: string, d: nat)
    requires KeyOk(k) && d <= HashOrEnd(a)
    ensures var c := HashOrEnd(a);
      var e := FindParam(a, d, k, c);
      if e < 0 then f + ValuesFrom(a, k, d) == f
      else var d' := ParamEnd(a, e, c);
        && d < d' <= c
        && f + ValuesFrom(a, k, d) == f + [Substr(a, e + |k| + 1, d' - (e + |k| + 1))] + ValuesFrom(a, k, d')
  {
    hide IsParamAt, FindParam, ParamEnd, HashOrEnd, Substr;
    var c := HashOrEnd(a);
    var e := FindParam(a, d, k, c);
    FindsFirst(a, d, k, c);
    if e >= 0 {
      ParamEndIsAfter(a, e, k, c);
      var d' := ParamEnd(a, e, c);
      var value := Substr(a, e + |k| + 1, d' - (e + |k| + 1));
      assert f + ([value] + ValuesFrom(a, k, d')) == f + [value] + ValuesFrom(a, k, d');
    }
  }

  lemma KeptStep(f: string, a: string, k: string, d: nat)
    requires KeyOk(k) && d <= HashOrEnd(a)
    ensures var c := HashOrEnd(a);
      var e := FindParam(a, d, k, c);
      if e < 0 then KeptFrom(a, k, d) == a[d..]
      else
        var i := IndexOf(a, "&", e);
        var d' := if i < 0 || i + 1 > c then c else i + 1;
        && d <= e < c && d < d' <= c
        && f + KeptFrom(a, k, d) == f + a[d..e] + KeptFrom(a, k, d')
  {
    hide IsParamAt, FindParam, HashOrEnd, IndexOf;
    var c := HashOrEnd(a);
    var e := FindParam(a, d, k, c);
    FindsFirst(a, d, k, c);
    if e >= 0 {
      ParamEndIsAfter(a, e, k, c);
      var i := IndexOf(a, "&", e);
      var d' := if i < 0 || i + 1 > c then c else i + 1;
      assert f + (a[d..e] + KeptFrom(a, k, d')) == f + a[d..e] + KeptFrom(a, k, d');
    }
  }

  method GetParamValuesLoop(a: string, k: string) returns (f: seq<string>)
    requires KeyOk(k)
    ensures f == GetParamValues(a, k)
  {
    hide FindParam, ParamEnd, ValuesFrom, HashOrEnd, Substr, KeyOk;
    var c := HashOrEnd(a);
    var d: nat := 0;
    f := [];
    var e := FindParamLoop(a, d, k, c);
    while e >= 0
      invariant d <= c && e == FindParam(a, d, k, c)
      invariant GetParamValues(a, k) == f + ValuesFrom(a, k, d)
      decreases |a| - d
    {
      ValuesStep(f, a, k, d);
      d := ParamEnd(a, e, c);
      e := e + |k| + 1;
      f := f + [Substr(a, e, d - e)];
      e := FindParamLoop(a, d, k, c);
    }
    ValuesStep(f, a, k, d);
  }

  method RemoveParamLoop(a: string, k: string) returns (r: string)
    requires KeyOk(k)
    ensures r == RemoveParam(a, k)
  {
    hide FindParam, KeptFrom, HashOrEnd, IndexOf, DropPunctuation, KeyOk;
    var c := HashOrEnd(a);
    var d: nat := 0;
    var f := "";
    var e := FindParamLoop(a, d, k, c);
    while e >= 0
      invariant d <= c && e == FindParam(a, d, k, c)
      invariant KeptFrom(a, k, 0) == f + KeptFrom(a, k, d)
      decreases |a| - d
    {
      KeptStep(f, a, k, d);
      var i := IndexOf(a, "&", e);
      f := f + a[d..e];
      d := if i < 0 || i + 1 > c then c else i + 1;
      e := FindParamLoop(a, d, k, c);
    }
    KeptStep(f, a, k, d);
    r := DropPunctuation(f + a[d..]);
  }

  method SetParamLoop(a: string, k: string, v: string) returns (r: string)
    requires KeyOk(k)
    ensures r == SetParam(a, k, v)
  {
    r := RemoveParamLoop(a, k);
    r := AppendParam(r, k, v);
  }
}
