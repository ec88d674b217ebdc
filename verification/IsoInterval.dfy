/** `goog.date.Interval.toIsoString` and `fromIsoString` (section 4.4.3 of ISO 8601:2004). */
module IsoInterval {
  import opened Wrappers

  /** Whole numbers, but for the seconds, which may have a fraction. */
  datatype Interval = Interval(years: int, months: int, days: int, hours: int, minutes: int, seconds: real)

  // ----- numbers as text

  predicate IsDigit(c: char) {
    '0' <= c <= '9'
  }

  predicate AllDigits(s: string) {
    forall i :: 0 <= i < |s| ==> IsDigit(s[i])
  }

  function Decimal(n: nat): (s: string)
    ensures s != "" && AllDigits(s)
  {
    var d := ['0' + (n % 10) as char];
    if n < 10 then d else Decimal(n / 10) + d
  }

  /** `parseInt(s, 10)` on digits */
  function Number(s: string): nat
    requires AllDigits(s)
  {
    if s == "" then 0 else Number(s[..|s| - 1]) * 10 + (s[|s| - 1] - '0') as nat
  }

  lemma {:induction false} NumberOfDecimal(n: nat)
    ensures Number(Decimal(n)) == n
  {
    var s := Decimal(n);
    assert s[|s| - 1] == '0' + (n % 10) as char;
    if n >= 10 {
      assert s[..|s| - 1] == Decimal(n / 10);
      NumberOfDecimal(n / 10);
    } else {
      assert s[..0] == "";
    }
  }

  /** The length of the run of digits a text starts with. */
  function Run(t: string): (n: nat)
    ensures n <= |t| && AllDigits(t[..n]) && (n < |t| ==> !IsDigit(t[n]))
  {
    if t == "" || !IsDigit(t[0]) then 0
    else
      var n := 1 + Run(t[1..]);
      assert forall i :: 0 < i < n ==> t[..n][i] == t[1..][..n - 1][i - 1];
      n
  }

  /** `parseFloat(s)` on digits with an optional fraction */
  function Fractional(s: string): real {
    var n := Run(s);
    var whole := Number(s[..n]) as real;
    if n < |s| && s[n] == '.' then
      var f := s[n + 1..][..Run(s[n + 1..])];
      whole + Number(f) as real / Power(|f|)
    else whole
  }

  function Power(n: nat): (p: real)
    ensures p > 0.0
  {
    if n == 0 then 1.0 else 10.0 * Power(n - 1)
  }

  function Ten(n: nat): nat {
    if n == 0 then 1 else 10 * Ten(n - 1)
  }

  lemma {:induction false} PowerIsTen(n: nat)
    ensures Power(n) == Ten(n) as real
  {
    if n > 0 {
      PowerIsTen(n - 1);
    }
  }

  lemma TimesTen(x: nat, p: nat, y: nat, d: nat)
    ensures (x * p + y) * 10 + d == x * (10 * p) + (y * 10 + d)
  {
  }

  lemma {:induction false} NumberOfBoth(w: string, f: string)
    requires AllDigits(w) && AllDigits(f)
    ensures Number(w + f) == Number(w) * Ten(|f|) + Number(f)
  {
    if f == "" {
      assert w + f == w;
    } else {
      var n := |f| - 1;
      NumberOfBoth(w, f[..n]);
      assert (w + f)[..|w| + n] == w + f[..n] && (w + f)[|w| + n] == f[n];
      TimesTen(Number(w), Ten(n), Number(f[..n]), (f[n] - '0') as nat);
    }
  }

  lemma TimesPower(x: real, y: real, p: real)
    requires p != 0.0
    ensures (x + y / p) * p == x * p + y
  {
  }

  lemma {:induction false} RunIs(s: string, n: nat)
    requires n <= |s| && AllDigits(s[..n]) && (n < |s| ==> !IsDigit(s[n]))
    ensures Run(s) == n
  {
    var m := Run(s);
    assert forall k :: 0 <= k < n ==> s[k] == s[..n][k];
    assert forall k :: 0 <= k < m ==> s[k] == s[..m][k];
  }

  /** The point stands behind n digits. */
  predicate PointAt(s: string, n: nat) {
    n < |s| && s[n] == '.' && AllDigits(s[..n]) && AllDigits(s[n + 1..])
  }

  lemma FractionParts(s: string, n: nat)
    requires PointAt(s, n)
    ensures Fractional(s) == Number(s[..n]) as real + Number(s[n + 1..]) as real / Power(|s| - n - 1)
  {
    hide Number, Power, Run;
    RunIs(s, n);
    var f := s[n + 1..];
    assert f[..|f|] == f;
    RunIs(f, |f|);
  }

  lemma Scales(w: nat, f: nat, t: nat)
    requires t > 0
    ensures (w as real + f as real / t as real) * t as real == (w * t + f) as real
  {
    TimesPower(w as real, f as real, t as real);
  }

  /** A decimal fraction is the number without its point, divided by ten for each place behind. */
  lemma FractionExactly(s: string, n: nat)
    requires PointAt(s, n)
    ensures var digits, places := s[..n] + s[n + 1..], |s| - n - 1;
      AllDigits(digits) && Fractional(s) * Ten(places) as real == Number(digits) as real
  {
    hide Number, Fractional, Run;
    FractionParts(s, n);
    NumberOfBoth(s[..n], s[n + 1..]);
    PowerIsTen(|s| - n - 1);
    TenIsPositive(|s| - n - 1);
    Scales(Number(s[..n]), Number(s[n + 1..]), Ten(|s| - n - 1));
  }

  lemma {:induction false} TenIsPositive(n: nat)
    ensures Ten(n) > 0
  {
    if n > 0 {
      TenIsPositive(n - 1);
    }
  }

  // ----- reading, as the regular expression does

  /** `(?:(\d+)Y)?` for the letter c: the digits, empty without a match, and the rest. */
  function Field(t: string, c: char): (r: (string, string))
    ensures AllDigits(r.0)
  {
    var n := Run(t);
    if 0 < n < |t| && t[n] == c then (t[..n], t[n + 1..]) else ("", t)
  }

  /** The length of `\d+(?:\.\d+)?` at the start of a text, or 0. */
  function FractionRun(t: string): (n: nat)
    ensures n <= |t|
  {
    var n := Run(t);
    if n == 0 || n == |t| || t[n] != '.' then n
    else
      var m := Run(t[n + 1..]);
      if m == 0 then n else n + 1 + m
  }

  function SecondsField(t: string): (string, string) {
    var n := FractionRun(t);
    if 0 < n < |t| && t[n] == 'S' then (t[..n], t[n + 1..]) else ("", t)
  }

  function Signed(negative: bool, years: int, months: int, days: int, hours: int, minutes: int, seconds: real)
    : Interval
  {
    if negative then Interval(-years, -months, -days, -hours, -minutes, -seconds)
    else Interval(years, months, days, hours, minutes, seconds)
  }

  function FromIsoString(text: string): Option<Interval> {
    var negative := text != "" && text[0] == '-';
    var t := if negative then text[1..] else text;
    if t == "" || t[0] != 'P' then None
    else
      var (y, t1) := Field(t[1..], 'Y');
      var (mo, t2) := Field(t1, 'M');
      var (d, t3) := Field(t2, 'D');
      var time := t3 != "" && t3[0] == 'T';
      var (h, t4) := if time then Field(t3[1..], 'H') else ("", t3);
      var (mi, t5) := if time then Field(t4, 'M') else ("", t4);
      var (s, t6) := if time then SecondsField(t5) else ("", t5);
      if t6 != "" then None
      else
        var noTime := h == "" && mi == "" && s == "";
        if noTime && ((y == "" && mo == "" && d == "") || time) then None
        else Some(Signed(negative, Number(y), Number(mo), Number(d), Number(h), Number(mi), Fractional(s)))
  }

  // ----- writing

  function Abs(x: int): nat {
    if x < 0 then -x else x
  }

  function AbsReal(x: real): real {
    if x < 0.0 then -x else x
  }

  predicate SomeNegative(i: Interval) {
    i.years < 0 || i.months < 0 || i.days < 0 || i.hours < 0 || i.minutes < 0 || i.seconds < 0.0
  }

  predicate SomePositive(i: Interval) {
    i.years > 0 || i.months > 0 || i.days > 0 || i.hours > 0 || i.minutes > 0 || i.seconds > 0.0
  }

  function Part(n: int, c: char, verbose: bool): string {
    if n != 0 || verbose then Decimal(Abs(n)) + [c] else ""
  }

  function SecondsPart(x: real, verbose: bool, show: real -> string): string {
    if x != 0.0 || verbose then show(AbsReal(x)) + "S" else ""
  }

  function TimePart(i: Interval, verbose: bool, show: real -> string): string {
    if i.hours != 0 || i.minutes != 0 || i.seconds != 0.0 || verbose then
      "T" + (Part(i.hours, 'H', verbose) + (Part(i.minutes, 'M', verbose) + SecondsPart(i.seconds, verbose, show)))
    else ""
  }

  function DatePart(i: Interval, verbose: bool, time: string): string {
    Part(i.years, 'Y', verbose) + (Part(i.months, 'M', verbose) + (Part(i.days, 'D', verbose) + time))
  }

  /** show turns a number of seconds into text. */
  function IsoString(i: Interval, verbose: bool, show: real -> string): Option<string> {
    if SomeNegative(i) && SomePositive(i) then None
    else if !verbose && !SomeNegative(i) && !SomePositive(i) then Some("PT0S")
    else Some((if SomeNegative(i) then "-" else "") + ("P" + DatePart(i, verbose, TimePart(i, verbose, show))))
  }

  function Smallest(xs: seq<real>): (m: real)
    requires xs != []
    ensures m in xs && forall x :: x in xs ==> m <= x
  {
    if |xs| == 1 then xs[0]
    else
      var m := Smallest(xs[1..]);
      assert forall x :: x in xs ==> x == xs[0] || x in xs[1..];
      if xs[0] <= m then xs[0] else m
  }

  function Largest(xs: seq<real>): (m: real)
    requires xs != []
    ensures m in xs && forall x :: x in xs ==> x <= m
  {
    if |xs| == 1 then xs[0]
    else
      var m := Largest(xs[1..]);
      assert forall x :: x in xs ==> x == xs[0] || x in xs[1..];
      if xs[0] >= m then xs[0] else m
  }

  /** `(n || a) && c.push(Math.abs(n) + "Y")` */
  method PushPart(c: string, n: int, letter: char, verbose: bool) returns (c': string)
    ensures c' == c + Part(n, letter, verbose)
  {
    c' := c;
    if n != 0 || verbose {
      c' := c + (Decimal(Abs(n)) + [letter]);
    }
  }

  method PushSeconds(c: string, x: real, verbose: bool, show: real -> string) returns (c': string)
    ensures c' == c + SecondsPart(x, verbose, show)
  {
    c' := c;
    if x != 0.0 || verbose {
      c' := c + (show(AbsReal(x)) + "S");
    }
  }

  /** Null exactly when some field is negative and another positive. */
  method ToIsoString(i: Interval, verbose: bool, show: real -> string) returns (r: Option<string>)
    ensures r == IsoString(i, verbose, show)
    ensures r.None? <==> SomeNegative(i) && SomePositive(i)
  {
    hide Part, SecondsPart, TimePart, DatePart;
    var fields := [i.years as real, i.months as real, i.days as real, i.hours as real, i.minutes as real, i.seconds];
    var min, max := Smallest(fields), Largest(fields);
    MinAndMax(i, fields, min, max);
    if min < 0.0 && max > 0.0 {
      return None;
    }
    if !verbose && min == 0.0 && max == 0.0 {
      return Some("PT0S");
    }
    var c := "";
    if min < 0.0 {
      c := c + "-";
    }
    ghost var sign := c;
    assert sign == if SomeNegative(i) then "-" else "";
    c := c + "P";
    c := PushPart(c, i.years, 'Y', verbose);
    c := PushPart(c, i.months, 'M', verbose);
    c := PushPart(c, i.days, 'D', verbose);
    ghost var date := c;
    if i.hours != 0 || i.minutes != 0 || i.seconds != 0.0 || verbose {
      c := c + "T";
      c := PushPart(c, i.hours, 'H', verbose);
      c := PushPart(c, i.minutes, 'M', verbose);
      c := PushSeconds(c, i.seconds, verbose, show);
    }
    TimeIsPushed(i, verbose, show, date, c);
    DateIsPushed(i, verbose, TimePart(i, verbose, show), sign);
    r := Some(c);
  }

  lemma Regroup(a: string, b: string, c: string, d: string, e: string)
    ensures a + b + c + d + e == a + (b + (c + (d + e)))
  {
    assert a + b + c + d + e == a + (b + (c + (d + e)));
  }

  lemma TimeIsPushed(i: Interval, verbose: bool, show: real -> string, date: string, c: string)
    requires c == if i.hours != 0 || i.minutes != 0 || i.seconds != 0.0 || verbose then
      date + "T" + Part(i.hours, 'H', verbose) + Part(i.minutes, 'M', verbose) + SecondsPart(i.seconds, verbose, show)
      else date
    ensures c == date + TimePart(i, verbose, show)
  {
    hide Part, SecondsPart;
    Regroup(date, "T", Part(i.hours, 'H', verbose), Part(i.minutes, 'M', verbose), SecondsPart(i.seconds, verbose, show));
  }

  lemma DateIsPushed(i: Interval, verbose: bool, time: string, sign: string)
    ensures sign + "P" + Part(i.years, 'Y', verbose) + Part(i.months, 'M', verbose) + Part(i.days, 'D', verbose) + time
      == sign + ("P" + DatePart(i, verbose, time))
  {
    hide Part;
    var y, m, d := Part(i.years, 'Y', verbose), Part(i.months, 'M', verbose), Part(i.days, 'D', verbose);
    Regroup(sign + "P", y, m, d, time);
    Regroup(sign, "P", DatePart(i, verbose, time), "", "");
  }

  lemma MinAndMax(i: Interval, fields: seq<real>, min: real, max: real)
    requires fields == [i.years as real, i.months as real, i.days as real, i.hours as real, i.minutes as real, i.seconds]
    requires min in fields && (forall x :: x in fields ==> min <= x)
    requires max in fields && (forall x :: x in fields ==> x <= max)
    ensures min < 0.0 <==> SomeNegative(i)
    ensures max > 0.0 <==> SomePositive(i)
    ensures min <= max
  {
    assert forall k :: 0 <= k < 6 ==> fields[k] in fields;
    assert fields[0] in fields && fields[1] in fields && fields[2] in fields;
    assert fields[3] in fields && fields[4] in fields && fields[5] in fields;
  }

  // ----- what is read

  /** The digits of the fields, empty where a field is missing. */
  datatype Duration = Duration(
    negative: bool, years: string, months: string, days: string, hours: string, minutes: string, seconds: string)

  function Unit(d: string, c: char): string {
    if d == "" then "" else d + [c]
  }

  predicate IsFraction(s: string) {
    var n := Run(s);
    n > 0 && (n < |s| ==> s[n] == '.' && n + 1 < |s| && Run(s[n + 1..]) == |s| - n - 1)
  }

  /** A T stands before the fields of the time, and only before them. */
  function TimeText(d: Duration): string {
    if d.hours == "" && d.minutes == "" && d.seconds == "" then ""
    else "T" + (Unit(d.hours, 'H') + (Unit(d.minutes, 'M') + Unit(d.seconds, 'S')))
  }

  function DateText(d: Duration, time: string): string {
    Unit(d.years, 'Y') + (Unit(d.months, 'M') + (Unit(d.days, 'D') + time))
  }

  function TextOf(d: Duration): string {
    (if d.negative then "-" else "") + ("P" + DateText(d, TimeText(d)))
  }

  predicate Digits(d: Duration) {
    && AllDigits(d.years) && AllDigits(d.months) && AllDigits(d.days) && AllDigits(d.hours) && AllDigits(d.minutes)
    && (d.seconds == "" || IsFraction(d.seconds))
  }

  /** Some field is there, and each is a number. */
  predicate IsDuration(d: Duration) {
    && Digits(d)
    && !(d.years == "" && d.months == "" && d.days == "" && d.hours == "" && d.minutes == "" && d.seconds == "")
  }

  function ValueOf(d: Duration): Interval
    requires Digits(d)
  {
    Signed(d.negative, Number(d.years), Number(d.months), Number(d.days), Number(d.hours), Number(d.minutes),
           Fractional(d.seconds))
  }

  // ----- reading the text of a duration

  /** A text that cannot be taken for a number before the letter c. */
  predicate NoField(t: string, c: char) {
    var n := Run(t);
    n == 0 || n == |t| || t[n] != c
  }

  lemma {:induction false} RunOfDigits(d: string, rest: string)
    requires AllDigits(d) && (rest == "" || !IsDigit(rest[0]))
    ensures Run(d + rest) == |d|
  {
    if d == "" {
      assert d + rest == rest;
    } else {
      assert (d + rest)[1..] == d[1..] + rest;
      RunOfDigits(d[1..], rest);
    }
  }

  lemma FieldReads(d: string, c: char, rest: string)
    requires AllDigits(d) && !IsDigit(c) && NoField(rest, c)
    ensures Field(Unit(d, c) + rest, c) == (d, rest)
    ensures forall c' :: (c' != c || d == "") && NoField(rest, c') ==> NoField(Unit(d, c) + rest, c')
  {
    var t := Unit(d, c) + rest;
    if d != "" {
      assert t == d + ([c] + rest);
      RunOfDigits(d, [c] + rest);
      assert t[..|d|] == d && t[|d|] == c && t[|d| + 1..] == rest;
    } else {
      assert t == rest;
    }
  }

  lemma FractionRead(d: string)
    requires IsFraction(d)
    ensures FractionRun(d + "S") == |d|
  {
    var n := Run(d);
    var t := d + "S";
    assert d == d[..n] + d[n..];
    if n == |d| {
      RunOfDigits(d, "S");
    } else {
      var f := d[n + 1..];
      assert t == d[..n] + (d[n..] + "S");
      RunOfDigits(d[..n], d[n..] + "S");
      assert t[n + 1..] == f + "S";
      assert f[..|f|] == f;
      RunOfDigits(f, "S");
    }
  }

  lemma SecondsRead(s: string)
    requires s == "" || IsFraction(s)
    ensures SecondsField(Unit(s, 'S')) == (s, "")
    ensures NoField(Unit(s, 'S'), 'H') && NoField(Unit(s, 'S'), 'M')
  {
    hide FractionRun;
    if s != "" {
      var t := s + "S";
      FractionRead(s);
      assert t[..|s|] == s && t[|s| + 1..] == "";
      SecondsAlone(s);
    } else {
      NoSeconds();
    }
  }

  lemma NoSeconds()
    ensures SecondsField("") == ("", "")
  {
  }

  lemma SecondsAlone(d: string)
    requires IsFraction(d)
    ensures NoField(d + "S", 'H') && NoField(d + "S", 'M')
  {
    var n := Run(d);
    assert d + "S" == d[..n] + (d[n..] + "S");
    RunOfDigits(d[..n], d[n..] + "S");
  }

  lemma TimeReads(d: Duration)
    requires Digits(d)
    ensures var t := TimeText(d);
      && NoField(t, 'Y') && NoField(t, 'M') && NoField(t, 'D')
      && if t == "" then d.hours == "" && d.minutes == "" && d.seconds == ""
         else
           && t[0] == 'T' && !(d.hours == "" && d.minutes == "" && d.seconds == "")
           && var (h, t1) := Field(t[1..], 'H');
           var (m, t2) := Field(t1, 'M');
           h == d.hours && m == d.minutes && SecondsField(t2) == (d.seconds, "")
  {
    hide Unit, IsFraction, SecondsField, Field, NoField;
    var s := Unit(d.seconds, 'S');
    SecondsRead(d.seconds);
    FieldReads(d.minutes, 'M', s);
    FieldReads(d.hours, 'H', Unit(d.minutes, 'M') + s);
    var t := TimeText(d);
    NoFieldAtT(t);
    assert t != "" ==> t[1..] == Unit(d.hours, 'H') + (Unit(d.minutes, 'M') + s);
  }

  lemma NoFieldAtT(t: string)
    requires t == "" || t[0] == 'T'
    ensures NoField(t, 'Y') && NoField(t, 'M') && NoField(t, 'D')
  {
  }

  lemma DateReads(d: Duration, time: string)
    requires Digits(d) && NoField(time, 'Y') && NoField(time, 'M') && NoField(time, 'D')
    ensures var (y, t1) := Field(DateText(d, time), 'Y');
      var (m, t2) := Field(t1, 'M');
      var (n, t3) := Field(t2, 'D');
      y == d.years && m == d.months && n == d.days && t3 == time
  {
    hide Unit, Field, NoField, IsFraction;
    var t2 := Unit(d.days, 'D') + time;
    FieldReads(d.days, 'D', time);
    FieldReads(d.months, 'M', t2);
    FieldReads(d.years, 'Y', Unit(d.months, 'M') + t2);
  }

  lemma DurationReads(d: Duration)
    requires IsDuration(d)
    ensures FromIsoString(TextOf(d)) == Some(ValueOf(d))
  {
    hide Field, SecondsField, NoField, TimeText, DateText, Fractional, Number, Run, Signed, IsFraction;
    var time := TimeText(d);
    TimeReads(d);
    DateReads(d, time);
    var date := DateText(d, time);
    var sign := if d.negative then "-" else "";
    assert TextOf(d)[|sign|..] == "P" + date && ("P" + date)[1..] == date;
  }

  // ----- nothing else is read

  lemma FieldSplits(t: string, c: char)
    ensures var (d, rest) := Field(t, c); AllDigits(d) && t == Unit(d, c) + rest
  {
    var n := Run(t);
    if 0 < n < |t| && t[n] == c {
      assert t == t[..n] + [t[n]] + t[n + 1..];
    }
  }

  lemma FractionSplits(t: string)
    ensures FractionRun(t) > 0 ==> IsFraction(t[..FractionRun(t)])
  {
    hide Run, AllDigits, IsFraction;
    var n := Run(t);
    if n > 0 {
      var m := if n < |t| && t[n] == '.' then Run(t[n + 1..]) else 0;
      if m > 0 {
        TwoRuns(t[..n], t[n + 1..][..m]);
        assert t[..n + 1 + m] == t[..n] + ("." + t[n + 1..][..m]);
      } else {
        OneRun(t[..n]);
      }
    }
  }

  lemma OneRun(a: string)
    requires a != "" && AllDigits(a)
    ensures IsFraction(a)
  {
    RunOfDigits(a, "");
    assert a + "" == a;
  }

  lemma TwoRuns(a: string, b: string)
    requires a != "" && AllDigits(a) && b != "" && AllDigits(b)
    ensures IsFraction(a + ("." + b))
  {
    hide AllDigits;
    RunOfDigits(a, "." + b);
    RunOfDigits(b, "");
    assert b + "" == b && (a + ("." + b))[|a| + 1..] == b;
  }

  lemma SecondsSplit(t: string)
    ensures var (s, rest) := SecondsField(t); (s == "" || IsFraction(s)) && t == Unit(s, 'S') + rest
  {
    hide FractionRun, IsFraction;
    FractionSplits(t);
    var n := FractionRun(t);
    if 0 < n < |t| && t[n] == 'S' {
      assert t == t[..n] + [t[n]] + t[n + 1..];
    }
  }

  lemma OnlyDurationsRead(text: string) returns (d: Duration)
    requires FromIsoString(text).Some?
    ensures IsDuration(d) && TextOf(d) == text && FromIsoString(text) == Some(ValueOf(d))
  {
    hide Field, SecondsField, Fractional, Number, Signed, IsFraction, Unit, AllDigits;
    var negative := text[0] == '-';
    var t := if negative then text[1..] else text;
    var (y, t1) := Field(t[1..], 'Y');
    var (mo, t2) := Field(t1, 'M');
    var (da, t3) := Field(t2, 'D');
    FieldSplits(t[1..], 'Y');
    FieldSplits(t1, 'M');
    FieldSplits(t2, 'D');
    assert text == (if negative then "-" else "") + t && t == "P" + t[1..];
    if t3 != "" {
      var (h, t4) := Field(t3[1..], 'H');
      var (mi, t5) := Field(t4, 'M');
      var (s, t6) := SecondsField(t5);
      FieldSplits(t3[1..], 'H');
      FieldSplits(t4, 'M');
      SecondsSplit(t5);
      d := Duration(negative, y, mo, da, h, mi, s);
      assert t3 == "T" + t3[1..] && Unit(s, 'S') + "" == Unit(s, 'S');
      assert TimeText(d) == t3;
    } else {
      d := Duration(negative, y, mo, da, "", "", "");
      NoDigits();
    }
  }

  lemma NoDigits()
    ensures AllDigits("")
  {
  }

  predicate Spells(d: Duration, text: string, i: Interval) {
    IsDuration(d) && TextOf(d) == text && ValueOf(d) == i
  }

  /** `fromIsoString` reads exactly the texts of durations with some field, an optional sign, and
      a T if and only if the time has a field; and it reads each as the signed numbers. */
  lemma ReadsExactly(text: string, i: Interval)
    ensures FromIsoString(text) == Some(i) <==> exists d: Duration :: Spells(d, text, i)
  {
    hide FromIsoString, TextOf, ValueOf, Digits;
    if FromIsoString(text) == Some(i) {
      var d := OnlyDurationsRead(text);
      assert Spells(d, text, i);
    }
    forall d: Duration | Spells(d, text, i) ensures FromIsoString(text) == Some(i) {
      DurationReads(d);
    }
  }

  // ----- reading what was written

  /** A text of seconds that is read back as the number. */
  predicate ReadsBack(t: string, x: real) {
    IsFraction(t) && Fractional(t) == x
  }

  function Written(n: int, verbose: bool): (s: string)
    ensures AllDigits(s)
  {
    if n != 0 || verbose then Decimal(Abs(n)) else ""
  }

  lemma WrittenReads(n: int, verbose: bool)
    ensures Number(Written(n, verbose)) == Abs(n)
    ensures Written(n, verbose) == "" <==> n == 0 && !verbose
  {
    NumberOfDecimal(Abs(n));
  }

  function Fields(i: Interval, verbose: bool, show: real -> string): Duration {
    Duration(SomeNegative(i), Written(i.years, verbose), Written(i.months, verbose), Written(i.days, verbose),
             Written(i.hours, verbose), Written(i.minutes, verbose),
             if i.seconds != 0.0 || verbose then show(AbsReal(i.seconds)) else "")
  }

  lemma ZeroSeconds()
    ensures Fractional("0") == 0.0 && Fractional("") == 0.0 && Number("") == 0 && IsFraction("0")
  {
    assert "0"[1..] == "";
    assert Run("0") == 1;
    assert "0"[..1] == "0" && "0"[..0] == "";
    assert Number("0") == 0;
  }

  lemma ZeroReads()
    ensures FromIsoString("PT0S") == Some(Interval(0, 0, 0, 0, 0, 0.0))
  {
    hide Fractional, FromIsoString, IsFraction, Run;
    var d := Duration(false, "", "", "", "", "", "0");
    ZeroSeconds();
    NoDigits();
    DurationReads(d);
    assert TimeText(d) == "T0S" && DateText(d, "T0S") == "T0S";
    assert TextOf(d) == "PT0S";
  }

  lemma TextIsWritten(i: Interval, verbose: bool, show: real -> string)
    requires !(SomeNegative(i) && SomePositive(i)) && (verbose || SomeNegative(i) || SomePositive(i))
    requires show(AbsReal(i.seconds)) != ""
    ensures IsoString(i, verbose, show) == Some(TextOf(Fields(i, verbose, show)))
  {
    hide Decimal;
    WrittenReads(i.hours, verbose);
    WrittenReads(i.minutes, verbose);
    assert TimePart(i, verbose, show) == TimeText(Fields(i, verbose, show));
  }

  /** The digits of a number without leading zeros, or nothing. */
  predicate Spelled(s: string, n: nat, written: bool) {
    if written then s != "" && AllDigits(s) && Number(s) == n && (s[0] == '0' ==> s == "0") else s == ""
  }

  lemma {:induction false} NoLeadingZero(n: nat)
    ensures Decimal(n)[0] == '0' ==> n == 0 && Decimal(n) == "0"
  {
    if n >= 10 {
      NoLeadingZero(n / 10);
      assert Decimal(n)[0] == Decimal(n / 10)[0];
    }
  }

  lemma WrittenIsSpelled(n: int, verbose: bool)
    ensures Spelled(Written(n, verbose), Abs(n), n != 0 || verbose)
  {
    NumberOfDecimal(Abs(n));
    NoLeadingZero(Abs(n));
  }

  /** What is written: a sign exactly before negative intervals, and the fields that are not zero, or
      all fields, as numbers without leading zeros; for the zero interval just "0S", and a T where
      the time begins. */
  lemma WritesExactly(i: Interval, verbose: bool, show: real -> string) returns (d: Duration)
    requires !(SomeNegative(i) && SomePositive(i)) && show(AbsReal(i.seconds)) != ""
    ensures IsoString(i, verbose, show) == Some(TextOf(d)) && d.negative == SomeNegative(i)
    ensures Spelled(d.years, Abs(i.years), i.years != 0 || verbose)
    ensures Spelled(d.months, Abs(i.months), i.months != 0 || verbose)
    ensures Spelled(d.days, Abs(i.days), i.days != 0 || verbose)
    ensures Spelled(d.hours, Abs(i.hours), i.hours != 0 || verbose)
    ensures Spelled(d.minutes, Abs(i.minutes), i.minutes != 0 || verbose)
    ensures d.seconds ==
      if i.seconds != 0.0 || verbose then show(AbsReal(i.seconds))
      else if SomeNegative(i) || SomePositive(i) then "" else "0"
  {
    if verbose || SomeNegative(i) || SomePositive(i) {
      d := Fields(i, verbose, show);
      TextIsWritten(i, verbose, show);
      WrittenIsSpelled(i.years, verbose);
      WrittenIsSpelled(i.months, verbose);
      WrittenIsSpelled(i.days, verbose);
      WrittenIsSpelled(i.hours, verbose);
      WrittenIsSpelled(i.minutes, verbose);
    } else {
      d := Duration(false, "", "", "", "", "", "0");
      assert TimeText(d) == "T0S" && DateText(d, "T0S") == "T0S";
      assert TextOf(d) == "PT0S";
    }
  }

  /** Without mixed signs the sign and the magnitudes give the interval back. */
  lemma SignsReturn(i: Interval)
    requires !(SomeNegative(i) && SomePositive(i))
    ensures i == Signed(
      SomeNegative(i), Abs(i.years), Abs(i.months), Abs(i.days), Abs(i.hours), Abs(i.minutes), AbsReal(i.seconds))
  {
  }

  lemma FieldsValue(i: Interval, verbose: bool, show: real -> string)
    requires !(SomeNegative(i) && SomePositive(i)) && (verbose || SomeNegative(i) || SomePositive(i))
    requires ReadsBack(show(AbsReal(i.seconds)), AbsReal(i.seconds))
    ensures var d := Fields(i, verbose, show); IsDuration(d) && ValueOf(d) == i
  {
    hide Decimal, Written, Fractional, Number, Signed, IsFraction;
    WrittenReads(i.years, verbose);
    WrittenReads(i.months, verbose);
    WrittenReads(i.days, verbose);
    WrittenReads(i.hours, verbose);
    WrittenReads(i.minutes, verbose);
    ZeroSeconds();
    SignsReturn(i);
    FractionNotEmpty(show(AbsReal(i.seconds)));
  }

  lemma FractionNotEmpty(s: string)
    ensures IsFraction(s) ==> s != ""
  {
  }

  /** What is written is read back, in both modes, for intervals without mixed signs. */
  lemma RoundTrip(i: Interval, verbose: bool, show: real -> string)
    requires !(SomeNegative(i) && SomePositive(i))
    requires ReadsBack(show(AbsReal(i.seconds)), AbsReal(i.seconds))
    ensures IsoString(i, verbose, show).Some? && FromIsoString(IsoString(i, verbose, show).value) == Some(i)
  {
    hide FromIsoString, TextOf, Fields, ValueOf, Run;
    if !verbose && !SomeNegative(i) && !SomePositive(i) {
      ZeroReads();
    } else {
      var d := Fields(i, verbose, show);
      FractionNotEmpty(show(AbsReal(i.seconds)));
      TextIsWritten(i, verbose, show);
      FieldsValue(i, verbose, show);
      DurationReads(d);
    }
  }

  /** Whole seconds need nothing of the number printer but decimal digits. */
  lemma WholeSecondsRead(n: nat)
    ensures ReadsBack(Decimal(n), n as real)
  {
    var d := Decimal(n);
    NumberOfDecimal(n);
    RunOfDigits(d, "");
    assert d + "" == d && d[..|d|] == d;
  }

  lemma WholeRoundTrip(i: Interval, verbose: bool, show: real -> string)
    requires !(SomeNegative(i) && SomePositive(i))
    requires i.seconds.Floor as real == i.seconds && show(AbsReal(i.seconds)) == Decimal(Abs(i.seconds.Floor))
    ensures IsoString(i, verbose, show).Some? && FromIsoString(IsoString(i, verbose, show).value) == Some(i)
  {
    var n := Abs(i.seconds.Floor);
    assert n as real == AbsReal(i.seconds);
    WholeSecondsRead(n);
    RoundTrip(i, verbose, show);
  }
}
