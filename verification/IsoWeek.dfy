/** ISO week dates in `goog.date`: `isLeapYear`, `isLongIsoYear`, `getWeekNumber` and
    `setDateFromIso8601Week_`, on days counted from 1 January of year 1, a Monday. Daylight
    saving time is left out: a day is 864E5 milliseconds. */
module IsoWeek {
  import opened Numbers

  // ----- the calendar of the Date object

  predicate IsLeapYear(y: int) {
    y % 4 == 0 && (y % 100 != 0 || y % 400 == 0)
  }

  /** The number of days before 1 January of year y. */
  function DaysBefore(y: int): int {
    365 * (y - 1) + (y - 1) / 4 - (y - 1) / 100 + (y - 1) / 400
  }

  function YearLength(y: int): int {
    if IsLeapYear(y) then 366 else 365
  }

  lemma Jump(x: int, m: int)
    requires m in {4, 100, 400}
    ensures x / m - (x - 1) / m == if x % m == 0 then 1 else 0
  {
  }

  lemma MultipleOf(q: int, m: int)
    requires m in {4, 100}
    ensures (m * q) % m == 0
  {
    if m == 4 {
      assert (4 * q) % 4 == 0;
    } else {
      assert (100 * q) % 100 == 0;
    }
  }

  lemma Multiples(y: int)
    ensures y % 400 == 0 ==> y % 100 == 0
    ensures y % 100 == 0 ==> y % 4 == 0
  {
    MultipleOf(4 * (y / 400), 100);
    MultipleOf(25 * (y / 100), 4);
  }

  lemma NextYear(y: int)
    ensures DaysBefore(y + 1) == DaysBefore(y) + YearLength(y)
  {
    var z := y - 1;
    Jump(y, 4);
    Jump(y, 100);
    Jump(y, 400);
    Multiples(y);
    assert DaysBefore(y + 1) == 365 * y + y / 4 - y / 100 + y / 400;
    assert DaysBefore(y) == 365 * y - 365 + z / 4 - z / 100 + z / 400;
  }

  /** `getFullYear` of a day, found from a year near it. */
  function YearFrom(n: int, y: int): (r: int)
    ensures DaysBefore(r) <= n < DaysBefore(r + 1)
    decreases if n < DaysBefore(y) then DaysBefore(y) - n else n - DaysBefore(y)
  {
    NextYear(y);
    NextYear(y - 1);
    if n < DaysBefore(y) then
      if n >= DaysBefore(y - 1) then y - 1 else YearFrom(n, y - 1)
    else if n >= DaysBefore(y + 1) then YearFrom(n, y + 1)
    else y
  }

  function FullYear(n: int): (y: int)
    ensures DaysBefore(y) <= n < DaysBefore(y + 1)
  {
    YearFrom(n, 1)
  }

  lemma {:induction false} DaysBeforeGrows(y: int, z: int)
    requires y <= z
    ensures DaysBefore(y) <= DaysBefore(z)
    decreases z - y
  {
    if y < z {
      NextYear(z - 1);
      DaysBeforeGrows(y, z - 1);
    }
  }

  lemma YearIsUnique(n: int, y: int)
    requires DaysBefore(y) <= n < DaysBefore(y + 1)
    ensures FullYear(n) == y
  {
    var r := FullYear(n);
    if r < y {
      DaysBeforeGrows(r + 1, y);
    } else if y < r {
      DaysBeforeGrows(y + 1, r);
    }
  }

  // ----- isLongIsoYear

  function LongYearSum(a: int): int {
    var b := 5 * a + 12 - 4 * (a / 100 - a / 400);
    var b' := b + ((a - 100) / 400 - (a - 102) / 400);
    b' + ((a - 200) / 400 - (a - 199) / 400)
  }

  predicate IsLongIsoYear(a: int) {
    Remainder(LongYearSum(a), 28) < 5
  }

  /** The formula with a remainder that is never negative. */
  predicate FormulaIsLong(a: int) {
    LongYearSum(a) % 28 < 5
  }

  /** The weekday of 1 January, Monday 0. */
  function January1(y: int): int {
    DaysBefore(y) % 7
  }

  /** Section 2.2.10 of ISO 8601:2004: a year has a week 53 when it starts on a Thursday, or
      is a leap year that starts on a Wednesday. */
  predicate HasWeek53(y: int) {
    January1(y) == 3 || (IsLeapYear(y) && January1(y) == 2)
  }

  lemma Div4(q: int, x: int)
    ensures (4 * q + x) / 4 == q + x / 4
  {
  }

  lemma Div100(q: int, x: int)
    ensures (100 * q + x) / 100 == q + x / 100
  {
  }

  lemma Div400(q: int, x: int)
    ensures (400 * q + x) / 400 == q + x / 400
  {
  }

  lemma Mod7(q: int, x: int)
    ensures (7 * q + x) % 7 == x % 7
  {
  }

  lemma Mod28(q: int, x: int)
    ensures (28 * q + x) % 28 == x % 28
  {
  }

  /** Both sides repeat every 400 years: 1988 is 71 * 28, and 146097 days are 20871 weeks. */
  lemma LongYearPeriod(q: int, s: int)
    ensures FormulaIsLong(400 * q + s) == FormulaIsLong(s)
  {
    Div100(4 * q, s);
    Div400(q, s);
    Div400(q, s - 100);
    Div400(q, s - 102);
    Div400(q, s - 200);
    Div400(q, s - 199);
    assert LongYearSum(400 * q + s) == 28 * (71 * q) + LongYearSum(s);
    Mod28(71 * q, LongYearSum(s));
  }

  lemma DaysPeriod(q: int, s: int)
    ensures DaysBefore(400 * q + s) == 7 * (20871 * q) + DaysBefore(s)
  {
    Div4(100 * q, s - 1);
    Div100(4 * q, s - 1);
    Div400(q, s - 1);
  }

  lemma LeapPeriod(q: int, s: int)
    ensures IsLeapYear(400 * q + s) == IsLeapYear(s)
  {
    Div4(100 * q, s);
    Div100(4 * q, s);
    Div400(q, s);
  }

  lemma Week53Period(q: int, s: int)
    ensures HasWeek53(400 * q + s) == HasWeek53(s)
  {
    hide DaysBefore, IsLeapYear;
    DaysPeriod(q, s);
    Mod7(20871 * q, DaysBefore(s));
    LeapPeriod(q, s);
  }

  /** The years of one 400-year period at which a quotient of the formulas jumps. */
  lemma LongYearAtJumps()
    ensures forall s :: s in {0, 100, 101, 199, 200, 300} ==> FormulaIsLong(s) == HasWeek53(s)
  {
  }

  lemma LongYearResidues(x: int, c: int, j: int)
    requires 0 <= x < 7 && 0 <= c < 4 && 0 <= j < 4
    ensures var w := (x + 124 * c + j - 1 + (if j == 0 then -1 else 0)) % 7;
      (4 * x + 496 * c + 5 * j + 12) % 28 < 5 <==> w == 3 || (j == 0 && w == 2)
  {
    var w, n := x + 5 * c + j - 1 + (if j == 0 then -1 else 0), 4 * x + 20 * c + 5 * j + 12;
    Mod7(17 * c, w);
    Mod28(17 * c, n);
    SmallResidues(x + 5 * c, c, j, w, n);
  }

  lemma SmallResidues(s: int, c: int, j: int, w: int, n: int)
    requires 0 <= s - 5 * c < 7 && 0 <= c < 4 && 0 <= j < 4
    requires w == s + j - 1 + (if j == 0 then -1 else 0) && n == 4 * s + 5 * j + 12
    ensures n % 28 < 5 <==> w % 7 == 3 || (j == 0 && w % 7 == 2)
  {
    var q := (s + j) / 7;
    Mod28(q, 4 * (s + j - 7 * q) + j + 12);
    Mod7(q, s + j - 7 * q - (if j == 0 then 2 else 1));
    ResiduesByHand(s + j - 7 * q, j);
  }

  lemma ResiduesByHand(r: int, j: int)
    requires 0 <= r < 7 && 0 <= j < 4
    ensures (4 * r + j + 12) % 28 < 5 <==> (r - (if j == 0 then 2 else 1)) % 7 == 3 || (j == 0 && (r - 2) % 7 == 2)
  {
  }

  lemma Quotient(x: int, m: int, q: int)
    requires m in {4, 100, 400} && m * q <= x < m * q + m
    ensures x / m == q && x % m == x - m * q
  {
  }

  lemma SumInCentury(c: int, k: int, j: int, z: int, x: int)
    requires 0 <= c < 4 && 0 <= k < 25 && 0 <= j < 4 && 5 * k == 7 * z + x
    requires 100 * c + 4 * k + j !in {100, 101, 199}
    ensures LongYearSum(100 * c + 4 * k + j) == 28 * z + (4 * x + 496 * c + 5 * j + 12)
  {
    var s := 100 * c + 4 * k + j;
    Quotient(s, 100, c);
    Quotient(s, 400, 0);
    Quotient(s - 100, 400, if s < 100 then -1 else 0);
    Quotient(s - 102, 400, if s < 102 then -1 else 0);
    Quotient(s - 200, 400, if s < 200 then -1 else 0);
    Quotient(s - 199, 400, if s < 199 then -1 else 0);
  }

  lemma DaysInCentury(c: int, k: int, j: int, z: int, x: int)
    requires 0 <= c < 4 && 0 <= k < 25 && 0 <= j < 4 && 5 * k == 7 * z + x && 4 * k + j > 0
    ensures var s := 100 * c + 4 * k + j;
      DaysBefore(s) == 7 * (52 * (s - 1) + z) + (x + 124 * c + j - 1 + if j == 0 then -1 else 0)
  {
    var s := 100 * c + 4 * k + j;
    Quotient(s - 1, 100, c);
    Quotient(s - 1, 400, 0);
    Quotient(s - 1, 4, 25 * c + k - if j == 0 then 1 else 0);
  }

  lemma LeapInCentury(c: int, k: int, j: int)
    requires 0 <= c < 4 && 0 <= k < 25 && 0 <= j < 4 && 4 * k + j > 0
    ensures IsLeapYear(100 * c + 4 * k + j) == (j == 0)
  {
    Quotient(100 * c + 4 * k + j, 4, 25 * c + k);
    Quotient(100 * c + 4 * k + j, 100, c);
  }

  /** Within a century, with x the remainder of 5 * k modulo 7. */
  lemma LongYearInCentury(c: int, k: int, j: int)
    requires 0 <= c < 4 && 0 <= k < 25 && 0 <= j < 4 && 4 * k + j > 0
    requires 100 * c + 4 * k + j !in {100, 101, 199}
    ensures FormulaIsLong(100 * c + 4 * k + j) == HasWeek53(100 * c + 4 * k + j)
  {
    hide LongYearSum, DaysBefore, IsLeapYear;
    var s := 100 * c + 4 * k + j;
    var x, z := (5 * k) % 7, (5 * k) / 7;
    var sum, days := 4 * x + 496 * c + 5 * j + 12, x + 124 * c + j - 1 + if j == 0 then -1 else 0;
    SumInCentury(c, k, j, z, x);
    DaysInCentury(c, k, j, z, x);
    LeapInCentury(c, k, j);
    LongYearResidues(x, c, j);
    Mod28(z, sum);
    Mod7(52 * (s - 1) + z, days);
    assert LongYearSum(s) % 28 == sum % 28 && DaysBefore(s) % 7 == days % 7;
  }

  /** The formula is right for every year. */
  lemma FormulaExactly(y: int)
    ensures FormulaIsLong(y) == HasWeek53(y)
  {
    hide FormulaIsLong, HasWeek53;
    var q, s := y / 400, y % 400;
    LongYearPeriod(q, s);
    Week53Period(q, s);
    var c, k, j := s / 100, s % 100 / 4, s % 4;
    assert s == 100 * c + 4 * k + j;
    if s in {0, 100, 101, 199, 200, 300} {
      LongYearAtJumps();
    } else {
      LongYearInCentury(c, k, j);
    }
  }

  lemma SumSign(a: int)
    ensures LongYearSum(a) >= 0 <==> a >= -2
  {
    if a < -3 || a >= 0 {
      Steps(a, 100);
      Steps(a, 400);
      Steps(a - 100, 400);
      Steps(a - 102, 400);
      Steps(a - 200, 400);
      Steps(a - 199, 400);
    }
  }

  lemma Steps(a: int, m: int)
    requires m in {100, 400}
    ensures m * (a / m) <= a < m * (a / m) + m
  {
  }

  /** `isLongIsoYear` takes every year below -2 for a long one, because the remainder of a
      negative sum is negative; otherwise it is right. */
  lemma LongYearExactly(y: int)
    ensures IsLongIsoYear(y) <==> y < -2 || HasWeek53(y)
    ensures (IsLongIsoYear(y) <==> HasWeek53(y)) <==> y >= -2 || HasWeek53(y)
  {
    hide LongYearSum, HasWeek53;
    FormulaExactly(y);
    SumSign(y);
  }

  lemma NegativeYearIsWrong()
    ensures IsLongIsoYear(-3) && !HasWeek53(-3)
  {
    LongYearExactly(-3);
    JanuaryOfMinusThree();
    hide IsLongIsoYear, DaysBefore;
  }

  lemma JanuaryOfMinusThree()
    ensures January1(-3) == 2
  {
    assert DaysBefore(-3) == -1461;
  }

  // ----- months, and the Date constructor

  function DaysInMonth(y: int, m: int): int {
    if m == 1 then (if IsLeapYear(y) then 29 else 28)
    else if m in {3, 5, 8, 10} then 30
    else 31
  }

  function DaysBeforeMonth(y: int, m: nat): int {
    if m == 0 then 0 else DaysBeforeMonth(y, m - 1) + DaysInMonth(y, m - 1)
  }

  /** `new Date(y, m, d)`: a year from 0 to 99 stands for 1900 to 1999, and months outside the
      year roll over into others. */
  function DayOf(y: int, m: int, d: int): int {
    var year := (if 0 <= y <= 99 then 1900 + y else y) + m / 12;
    DaysBefore(year) + DaysBeforeMonth(year, m % 12) + d - 1
  }

  /** `getDay`: Sunday is 0. */
  function GetDay(n: int): int {
    (n + 1) % 7
  }

  /** `getMonth` of day r of year y, both counted from 0. */
  function MonthFrom(y: int, r: int, m: nat): (month: nat)
    requires m <= 11 && DaysBeforeMonth(y, m) <= r < YearLength(y)
    ensures month <= 11 && DaysBeforeMonth(y, month) <= r < DaysBeforeMonth(y, month + 1)
    decreases 11 - m
  {
    MonthsOfYear(y);
    if m == 11 || r < DaysBeforeMonth(y, m + 1) then m else MonthFrom(y, r, m + 1)
  }

  lemma MonthsOfYear(y: int)
    ensures DaysBeforeMonth(y, 12) == YearLength(y)
  {
    assert DaysBeforeMonth(y, 1) == 31;
    assert DaysBeforeMonth(y, 2) == 31 + DaysInMonth(y, 1);
    assert DaysBeforeMonth(y, 4) == DaysBeforeMonth(y, 2) + 61;
    assert DaysBeforeMonth(y, 6) == DaysBeforeMonth(y, 4) + 61;
    assert DaysBeforeMonth(y, 8) == DaysBeforeMonth(y, 6) + 62;
    assert DaysBeforeMonth(y, 10) == DaysBeforeMonth(y, 8) + 61;
  }

  function Month(n: int): (m: nat)
    ensures m <= 11
  {
    var y := FullYear(n);
    NextYear(y);
    MonthFrom(y, n - DaysBefore(y), 0)
  }

  function DayOfMonth(n: int): int {
    n - DaysBefore(FullYear(n)) - DaysBeforeMonth(FullYear(n), Month(n)) + 1
  }

  /** `Date` takes the year for what it is. */
  predicate AsWritten(y: int) {
    y < 0 || y >= 100
  }

  lemma YearStart(y: int)
    ensures DayOf(y, 0, 1) == DaysBefore(if AsWritten(y) then y else 1900 + y)
    ensures !AsWritten(y) ==> DayOf(y, 0, 1) >= DaysBefore(y + 1) + 365
  {
    hide DaysBefore;
    if !AsWritten(y) {
      NextYear(y + 1);
      DaysBeforeGrows(y + 2, 1900 + y);
    }
  }

  lemma MonthStarts(y: int, m: nat)
    ensures DaysBeforeMonth(y, m) >= 0
  {
  }

  /** Year, month and day of month give the day back exactly when the year is not one of 0 to
      99. */
  lemma DateRoundTrip(n: int)
    ensures DayOf(FullYear(n), Month(n), DayOfMonth(n)) == n <==> AsWritten(FullYear(n))
    ensures 1 <= DayOfMonth(n) <= DaysInMonth(FullYear(n), Month(n))
  {
    hide DaysBefore, FullYear;
    var y := FullYear(n);
    NextYear(y);
    if !AsWritten(y) {
      YearStart(y);
      MonthStarts(1900 + y, Month(n));
    }
  }

  /** Months and days outside their range count on, also backwards, and the weekdays are those of the
      calendar: the first of January 1970 was a Thursday. */
  lemma RollsOver(y: int, m: int, d: int, n: int)
    requires AsWritten(y) && AsWritten(y + 1)
    ensures DayOf(y, m + 12, d) == DayOf(y + 1, m, d)
    ensures DayOf(y, m, d + n) == DayOf(y, m, d) + n
    ensures 0 <= m < 11 ==> DayOf(y, m + 1, d) == DayOf(y, m, d + DaysInMonth(y, m))
    ensures m == 11 ==> DayOf(y, m + 1, d) == DayOf(y, m, d + 31)
    ensures GetDay(DayOf(1970, 0, 1)) == 4
  {
    hide DaysBefore;
    assert (m + 12) / 12 == m / 12 + 1 && (m + 12) % 12 == m % 12;
    NextYear(y);
    MonthsOfYear(y);
    assert DaysBeforeMonth(y, 12) == DaysBeforeMonth(y, 11) + 31;
    assert DaysBefore(1970) % 7 == 3 by { Weekday1970(); }
  }

  lemma Weekday1970()
    ensures DaysBefore(1970) % 7 == 3
  {
  }

  // ----- getWeekNumber

  /** The day of n's week that decides the year the week belongs to. An absent cut-off day and
      Monday, which is 0, both stand for Thursday; `first` is the first day of the week. */
  function CutOffDay(n: int, cutOff: nat, first: nat): int
    requires cutOff <= 6 && first <= 6
  {
    var d := if cutOff == 0 then 3 else cutOff;
    var b := ((GetDay(n) + 6) % 7 - first + 7) % 7;
    n + ((d - first + 7) % 7 - b)
  }

  function GetWeekNumber(y: int, m: int, date: int, cutOff: nat, first: nat): int
    requires cutOff <= 6 && first <= 6
  {
    var e := CutOffDay(DayOf(y, m, date), cutOff, first);
    (e - DayOf(FullYear(e), 0, 1)) / 7 + 1
  }

  /** How many of the days from a to b fall on weekday w, Monday 0. */
  function CountWeekday(a: int, b: int, w: int): nat
    decreases b - a
  {
    if b < a then 0 else CountWeekday(a, b - 1, w) + if b % 7 == w then 1 else 0
  }

  lemma {:induction false} CountEverySeventh(a: int, b: int, w: int)
    requires 0 <= w < 7 && a - 1 <= b
    ensures var f := a + (w - a) % 7; CountWeekday(a, b, w) == if b < f then 0 else (b - f) / 7 + 1
    decreases b - a
  {
    if a <= b {
      CountEverySeventh(a, b - 1, w);
      var f := a + (w - a) % 7;
      assert f % 7 == w;
      assert b >= f ==> ((b - f) % 7 == 0 <==> b % 7 == w);
    }
  }

  /** The cut-off day is the day with that weekday in the week of n. */
  lemma CutOffDayInWeek(n: int, cutOff: nat, first: nat)
    requires cutOff <= 6 && first <= 6
    ensures var e, start := CutOffDay(n, cutOff, first), n - (n - first) % 7;
      && start % 7 == first && start <= n < start + 7 && start <= e < start + 7
      && e % 7 == if cutOff == 0 then 3 else cutOff
  {
    hide GetDay;
    StartOfWeek(n, first);
    var q, d := (n - first) / 7, if cutOff == 0 then 3 else cutOff;
    Mod7(q, first);
    Mod7(q, d);
    Mod7(q + 1, d);
  }

  /** The day's place in its week. */
  lemma StartOfWeek(n: int, first: nat)
    requires first <= 6
    ensures ((GetDay(n) + 6) % 7 - first + 7) % 7 == (n - first) % 7
  {
    Residue(n + 1, -6);
    Mod7(1, n);
    Residue(n, first - 7);
    Mod7(1, n - first);
  }

  lemma Residue(x: int, y: int)
    ensures (x % 7 - y) % 7 == (x - y) % 7
  {
    Mod7(x / 7, x % 7 - y);
  }

  lemma ThursdayOfWeek(n: int)
    ensures CutOffDay(n, 0, 0) == n - n % 7 + 3
  {
    hide CutOffDay;
    CutOffDayInWeek(n, 0, 0);
    var e := CutOffDay(n, 0, 0);
    Mod7(n / 7, e - 7 * (n / 7));
  }

  lemma FirstSameWeekday(j: int, e: int)
    requires j <= e
    ensures j + (e % 7 - j) % 7 == e - 7 * ((e - j) / 7)
  {
  }

  lemma SeventhsSince(j: int, e: int)
    requires j <= e
    ensures (e - (e - 7 * ((e - j) / 7))) / 7 == (e - j) / 7
  {
  }

  /** For any first day of the week and any cut-off day, the number of a week is the number of
      cut-off days that its year has had by the end of the week, exactly when the year is not
      one of 0 to 99. For these the number is negative. */
  lemma WeekNumberCounts(y: int, m: int, date: int, cutOff: nat, first: nat)
    requires cutOff <= 6 && first <= 6
    ensures var e := CutOffDay(DayOf(y, m, date), cutOff, first);
      var number := GetWeekNumber(y, m, date, cutOff, first);
      && (number == CountWeekday(DaysBefore(FullYear(e)), e, e % 7) <==> AsWritten(FullYear(e)))
      && (!AsWritten(FullYear(e)) ==> number < 0)
  {
    hide DaysBefore, DayOf, CutOffDay;
    var e := CutOffDay(DayOf(y, m, date), cutOff, first);
    var j := DaysBefore(FullYear(e));
    YearStart(FullYear(e));
    if AsWritten(FullYear(e)) {
      CountEverySeventh(j, e, e % 7);
      FirstSameWeekday(j, e);
      SeventhsSince(j, e);
    }
  }

  // ----- ISO week dates

  /** `setDateFromIso8601Week_` on a date in year y: the weekday of its 1 January, and days added
      by way of the `Date` constructor. */
  function FromIsoWeek(y: int, week: int, day: int): int {
    var weekday := GetDay(DaysBefore(y));
    var d := if weekday == 0 then 7 else weekday;
    DayOf(y, 0, 1) + (if d <= 4 then 1 - d else 8 - d) + (day + 7 * (week - 1)) - 1
  }

  /** The number of weeks as the code has it, and as it is. */
  function WeeksIn(y: int): int {
    if IsLongIsoYear(y) then 53 else 52
  }

  function Weeks(y: int): int {
    if HasWeek53(y) then 53 else 52
  }

  /** The year the week of n belongs to, and the ISO number of the weekday of n. */
  function WeekYear(n: int): int {
    FullYear(CutOffDay(n, 0, 0))
  }

  function IsoDay(n: int): int {
    n % 7 + 1
  }

  function WeekNumber(n: int): int {
    GetWeekNumber(FullYear(n), Month(n), DayOfMonth(n), 0, 0)
  }

  function FirstThursday(y: int): int {
    DaysBefore(y) + (3 - DaysBefore(y)) % 7
  }

  lemma ThursdayOffset(j: int)
    ensures (3 - j) % 7 == if j % 7 <= 3 then 3 - j % 7 else 10 - j % 7
    ensures (j + (3 - j) % 7) % 7 == 3
    ensures j % 7 + 1 == if GetDay(j) == 0 then 7 else GetDay(j)
  {
  }

  lemma FromFirstThursday(y: int, week: int, day: int)
    ensures FromIsoWeek(y, week, day) - DayOf(y, 0, 1) == FirstThursday(y) - DaysBefore(y) - 3 + 7 * (week - 1) + day - 1
    ensures FirstThursday(y) % 7 == 3 && DaysBefore(y) <= FirstThursday(y) <= DaysBefore(y) + 6
  {
    hide DaysBefore, DayOf, GetDay;
    ThursdayOffset(DaysBefore(y));
  }

  lemma WeeksHaveThursdays(y: int)
    ensures FirstThursday(y) + 7 * (Weeks(y) - 1) < DaysBefore(y + 1) <= FirstThursday(y) + 7 * Weeks(y)
  {
    hide DaysBefore, IsLeapYear, GetDay;
    NextYear(y);
    ThursdayOffset(DaysBefore(y));
  }

  /** A year has as many Thursdays as `isLongIsoYear` gives it weeks, exactly where this is
      right. */
  lemma LastThursday(y: int)
    ensures FirstThursday(y) + 7 * (WeeksIn(y) - 1) < DaysBefore(y + 1) <= FirstThursday(y) + 7 * WeeksIn(y)
      <==> y >= -2 || HasWeek53(y)
  {
    hide IsLongIsoYear, DaysBefore, HasWeek53, FirstThursday;
    LongYearExactly(y);
    WeeksHaveThursdays(y);
  }

  /** The two days of year 0 that belong to the last week of the year before, and the first week
      of year 100. */
  lemma EdgesOfTheShift()
    ensures DaysBefore(0) == -366 && DaysBefore(1) == 0 && FirstThursday(-1) == -725
    ensures DaysBefore(100) == 36159 && FirstThursday(100) == 36165
  {
  }

  lemma YearOf1900()
    ensures FullYear(693598) == 1900 && DaysBefore(1900) == 693595
  {
    YearIsUnique(693598, 1900);
  }

  lemma WeekOfYearZero(n: int)
    requires n == -366 || n == -365
    ensures FullYear(n) == 0 && WeekNumber(n) == 1
  {
    EdgesOfTheShift();
    YearIsUnique(n, 0);
    MonthZero(n);
    FirstWeekOf1900(n + 367);
    hide DaysBefore, FullYear, CutOffDay, GetWeekNumber, Month, DayOfMonth;
  }

  lemma FirstWeekOf1900(d: int)
    requires 1 <= d <= 7
    ensures GetWeekNumber(0, 0, d, 0, 0) == 1
  {
    YearOf1900();
    hide DaysBefore, FullYear, CutOffDay;
    ThursdayOfWeek(693594 + d);
    assert DayOf(0, 0, d) == 693594 + d && DayOf(1900, 0, 1) == 693595;
    assert CutOffDay(693594 + d, 0, 0) == 693598;
  }

  lemma MonthZero(n: int)
    requires FullYear(n) == 0 && DaysBefore(0) == -366 && (n == -366 || n == -365)
    ensures Month(n) == 0 && DayOfMonth(n) == n + 367
  {
    hide DaysBefore, FullYear;
    NextYear(0);
    assert DaysBeforeMonth(0, 1) == 31;
  }

  /** A day of a year 0 to 99 whose week year is not among them has another week number than its
      own. */
  lemma ShiftedDay(y: int, week: int, n: int)
    requires AsWritten(y) && 1 <= week <= Weeks(y) && !AsWritten(FullYear(n))
    requires var t := FirstThursday(y) + 7 * (week - 1); t - 3 <= n <= t + 3
    ensures WeekNumber(n) != week
  {
    hide DaysBefore, FullYear, WeekNumber, HasWeek53;
    EdgesOfTheShift();
    WeeksHaveThursdays(y);
    FromFirstThursday(y, 1, 1);
    hide FirstThursday;
    DaysBeforeGrows(0, FullYear(n));
    DaysBeforeGrows(FullYear(n) + 1, 100);
    if y >= 100 {
      NextYear(100);
      DaysBeforeGrows(if y == 100 then 100 else 101, y);
    } else {
      if y < -1 {
        NextYear(-1);
        DaysBeforeGrows(y + 1, -1);
      }
      assert y == -1;
      assert week == 52 && -366 <= n <= -365;
      WeekOfYearZero(n);
    }
  }

  /** A valid week date is the week date of the day it denotes, exactly when neither its year
      nor the year of that day is one of 0 to 99. */
  lemma WeekDateRoundTrip(y: int, week: int, day: int)
    requires 1 <= week <= Weeks(y) && 1 <= day <= 7
    ensures var n := FromIsoWeek(y, week, day);
      WeekYear(n) == y && WeekNumber(n) == week && IsoDay(n) == day <==> AsWritten(y) && AsWritten(FullYear(n))
  {
    hide DaysBefore, FullYear, HasWeek53, Month, DayOfMonth, DayOf;
    var n := FromIsoWeek(y, week, day);
    FromFirstThursday(y, week, day);
    YearStart(y);
    CutOffDayInWeek(n, 0, 0);
    ThursdayOfWeek(n);
    if AsWritten(y) {
      InItsYear(y, week, day);
      if AsWritten(FullYear(n)) {
        DateRoundTrip(n);
        WeekOfThursday(FirstThursday(y), DaysBefore(y), week);
      } else {
        ShiftedDay(y, week, n);
      }
    } else {
      LaterYear(n - n % 7 + 3, y);
    }
  }

  lemma WeekOfThursday(f: int, j: int, week: int)
    requires j <= f <= j + 6
    ensures (f + 7 * (week - 1) - j) / 7 + 1 == week
  {
  }

  lemma LaterYear(t: int, y: int)
    requires t >= DaysBefore(y + 1)
    ensures FullYear(t) != y
  {
    hide DaysBefore;
  }

  lemma InItsYear(y: int, week: int, day: int)
    requires AsWritten(y) && 1 <= week <= Weeks(y) && 1 <= day <= 7
    ensures var n, t := FromIsoWeek(y, week, day), FirstThursday(y) + 7 * (week - 1);
      n - n % 7 + 3 == t && n % 7 == day - 1 && FullYear(t) == y
  {
    hide DaysBefore, HasWeek53, DayOf, FirstThursday, FromIsoWeek;
    FromFirstThursday(y, week, day);
    YearStart(y);
    WeeksHaveThursdays(y);
    YearIsUnique(FirstThursday(y) + 7 * (week - 1), y);
  }

  lemma ThursdaysApart(t: int, f: int, j: int)
    requires t % 7 == 3 && f % 7 == 3 && j <= f <= j + 6 && j <= t
    ensures t == f + 7 * ((t - j) / 7)
  {
  }

  /** The week date of a day is valid and denotes the day, exactly under the same condition: with
      `WeekDateRoundTrip`, these days and their valid week dates correspond one to one. */
  lemma DayRoundTrip(n: int)
    ensures var y, week, day := WeekYear(n), WeekNumber(n), IsoDay(n);
      && 1 <= day <= 7
      && (1 <= week <= Weeks(y) && FromIsoWeek(y, week, day) == n <==> AsWritten(y) && AsWritten(FullYear(n)))
  {
    hide DaysBefore, CutOffDay, DayOf, FromIsoWeek, FirstThursday, Weeks, FullYear, Month, DayOfMonth;
    var y, t := WeekYear(n), CutOffDay(n, 0, 0);
    ThursdayOfWeek(n);
    FromFirstThursday(y, 1, 1);
    WeeksHaveThursdays(y);
    var own := (t - DaysBefore(y)) / 7 + 1;
    ThursdaysApart(t, FirstThursday(y), DaysBefore(y));
    FromFirstThursday(y, own, IsoDay(n));
    FromFirstThursday(y, WeekNumber(n), IsoDay(n));
    YearStart(y);
    if AsWritten(y) {
      assert FromIsoWeek(y, own, IsoDay(n)) == n;
      WeekDateRoundTrip(y, own, IsoDay(n));
    }
  }
}
