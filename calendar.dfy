/** Gregorian calendar arithmetic for a local wall clock with no time zone.
    Dates are proleptic Gregorian for every integer year; day number 0 is
    0001-01-01, a Monday. Days of the week are numbered 1 (Monday) to 7 (Sunday). */
module Calendar {

  // ----- years and months -----

  predicate IsLeapYear(year: int) {
    year % 4 == 0 && (year % 100 != 0 || year % 400 == 0)
  }

  function DaysInYear(year: int): (n: int)
    ensures n == 365 || n == 366
    ensures n == 366 <==> IsLeapYear(year)
  {
    if IsLeapYear(year) then 366 else 365
  }

  /** The last day of the month: the maximum value of its day-of-month. */
  function DaysInMonth(year: int, month: int): (n: int)
    requires 1 <= month <= 12
    ensures 28 <= n <= 31
    ensures month == 2 ==> (n == 29 <==> IsLeapYear(year))
  {
    if month == 2 then (if IsLeapYear(year) then 29 else 28)
    else if month == 4 || month == 6 || month == 9 || month == 11 then 30
    else 31
  }

  /** Number of days of `year` that lie before the first of `month`. */
  function DaysBeforeMonth(year: int, month: int): int
    requires 1 <= month <= 12
  {
    var cumulative := [0, 31, 59, 90, 120, 151, 181, 212, 243, 273, 304, 334];
    cumulative[month - 1] + (if month > 2 && IsLeapYear(year) then 1 else 0)
  }

  /** The table of DaysBeforeMonth is the running sum of the month lengths, and
      the twelve months fill the year exactly. */
  lemma MonthLengthsAccumulate(year: int, month: int)
    requires 1 <= month <= 12
    ensures month < 12 ==> DaysBeforeMonth(year, month + 1) == DaysBeforeMonth(year, month) + DaysInMonth(year, month)
    ensures month == 12 ==> DaysBeforeMonth(year, month) + DaysInMonth(year, month) == DaysInYear(year)
  {
  }

  /** Days from 0001-01-01 to the first of January of `year`, in closed form. */
  function DaysBeforeYear(year: int): int {
    var n := year - 1;
    365 * n + n / 4 - n / 100 + n / 400
  }

  lemma DivisionStep(n: int, k: int)
    requires k == 4 || k == 100 || k == 400
    ensures (n + 1) / k == n / k + (if (n + 1) % k == 0 then 1 else 0)
  {
  }

  lemma Divisibility(year: int)
    ensures year % 400 == 0 ==> year % 100 == 0
    ensures year % 100 == 0 ==> year % 4 == 0
  {
    if year % 400 == 0 {
      var d := 4 * (year / 400) - year / 100;
      assert year == 100 * (4 * (year / 400));
      assert 100 * d == year % 100;
      assert d == 0;
    }
    if year % 100 == 0 {
      var d := 25 * (year / 100) - year / 4;
      assert year == 4 * (25 * (year / 100));
      assert 4 * d == year % 4;
      assert d == 0;
    }
  }

  /** The closed form agrees with adding up the lengths of the years. */
  lemma YearLengthsAccumulate(year: int)
    ensures DaysBeforeYear(year + 1) == DaysBeforeYear(year) + DaysInYear(year)
  {
    var n := year - 1;
    DivisionStep(n, 4);
    DivisionStep(n, 100);
    DivisionStep(n, 400);
    Divisibility(year);
    var a := if year % 4 == 0 then 1 else 0;
    var b := if year % 100 == 0 then 1 else 0;
    var c := if year % 400 == 0 then 1 else 0;
    assert year / 4 == n / 4 + a && year / 100 == n / 100 + b && year / 400 == n / 400 + c;
    assert DaysInYear(year) == 365 + a - b + c;
  }

  lemma {:induction false} YearsAreDisjoint(y1: int, y2: int)
    requires y1 < y2
    ensures DaysBeforeYear(y1) + DaysInYear(y1) <= DaysBeforeYear(y2)
    decreases y2 - y1
  {
    YearLengthsAccumulate(y1);
    if y1 + 1 < y2 {
      YearsAreDisjoint(y1 + 1, y2);
    }
  }

  // ----- dates -----

  datatype Date = Date(year: int, month: int, day: int)

  predicate ValidDate(d: Date) {
    1 <= d.month <= 12 && 1 <= d.day <= DaysInMonth(d.year, d.month)
  }

  /** Day number of the first day of a month. */
  function MonthStart(year: int, month: int): int
    requires 1 <= month <= 12
  {
    DaysBeforeYear(year) + DaysBeforeMonth(year, month)
  }

  /** Days elapsed since 0001-01-01. */
  function DayNumber(d: Date): int
    requires ValidDate(d)
  {
    MonthStart(d.year, d.month) + d.day - 1
  }

  /** ISO day of the week: 1 is Monday, 7 is Sunday. */
  function Weekday(d: Date): (w: int)
    requires ValidDate(d)
    ensures 1 <= w <= 7
  {
    DayNumber(d) % 7 + 1
  }

  predicate MonthBefore(y1: int, m1: int, y2: int, m2: int) {
    y1 < y2 || (y1 == y2 && m1 < m2)
  }

  predicate DateBefore(a: Date, b: Date) {
    MonthBefore(a.year, a.month, b.year, b.month) ||
    (a.year == b.year && a.month == b.month && a.day < b.day)
  }

  lemma {:induction false} MonthsWithinYear(year: int, m1: int, m2: int)
    requires 1 <= m1 < m2 <= 12
    ensures DaysBeforeMonth(year, m1) + DaysInMonth(year, m1) <= DaysBeforeMonth(year, m2)
    decreases m2 - m1
  {
    MonthLengthsAccumulate(year, m1);
    if m1 + 1 < m2 {
      MonthsWithinYear(year, m1 + 1, m2);
    }
  }

  lemma MonthFitsInYear(year: int, month: int)
    requires 1 <= month <= 12
    ensures DaysBeforeMonth(year, month) + DaysInMonth(year, month) <= DaysInYear(year)
  {
    MonthLengthsAccumulate(year, 12);
    if month < 12 {
      MonthsWithinYear(year, month, 12);
    }
  }

  /** Every month occupies its own block of day numbers, and the blocks follow
      calendar order. */
  lemma MonthsAreDisjoint(y1: int, m1: int, y2: int, m2: int)
    requires 1 <= m1 <= 12 && 1 <= m2 <= 12
    requires MonthBefore(y1, m1, y2, m2)
    ensures MonthStart(y1, m1) + DaysInMonth(y1, m1) <= MonthStart(y2, m2)
  {
    if y1 == y2 {
      MonthsWithinYear(y1, m1, m2);
    } else {
      MonthFitsInYear(y1, m1);
      YearsAreDisjoint(y1, y2);
    }
  }

  /** Day numbers follow calendar order. */
  lemma DayNumberOrder(a: Date, b: Date)
    requires ValidDate(a) && ValidDate(b)
    ensures DayNumber(a) < DayNumber(b) <==> DateBefore(a, b)
  {
    if MonthBefore(a.year, a.month, b.year, b.month) {
      MonthsAreDisjoint(a.year, a.month, b.year, b.month);
    } else if MonthBefore(b.year, b.month, a.year, a.month) {
      MonthsAreDisjoint(b.year, b.month, a.year, a.month);
    }
  }

  /** Distinct dates have distinct day numbers. */
  lemma DayNumberInjective(a: Date, b: Date)
    requires ValidDate(a) && ValidDate(b)
    ensures DayNumber(a) == DayNumber(b) <==> a == b
  {
    DayNumberOrder(a, b);
    DayNumberOrder(b, a);
  }

  /** A valid date whose day number falls in the block of a month lies in that month. */
  lemma DateInMonthBlock(d: Date, year: int, month: int)
    requires ValidDate(d) && 1 <= month <= 12
    requires MonthStart(year, month) <= DayNumber(d) < MonthStart(year, month) + DaysInMonth(year, month)
    ensures d.year == year && d.month == month
  {
    if MonthBefore(d.year, d.month, year, month) {
      MonthsAreDisjoint(d.year, d.month, year, month);
    } else if MonthBefore(year, month, d.year, d.month) {
      MonthsAreDisjoint(year, month, d.year, d.month);
    }
  }

  /** The day after `d`, carrying into the next month and year. */
  function NextDate(d: Date): (r: Date)
    requires ValidDate(d)
    ensures ValidDate(r) && DayNumber(r) == DayNumber(d) + 1
  {
    MonthLengthsAccumulate(d.year, d.month);
    YearLengthsAccumulate(d.year);
    if d.day < DaysInMonth(d.year, d.month) then Date(d.year, d.month, d.day + 1)
    else if d.month < 12 then Date(d.year, d.month + 1, 1)
    else Date(d.year + 1, 1, 1)
  }

  /** The first day of the month after the month of `d`. */
  function FirstOfNextMonth(d: Date): (r: Date)
    requires ValidDate(d)
    ensures ValidDate(r) && r.day == 1
    ensures DayNumber(r) == MonthStart(d.year, d.month) + DaysInMonth(d.year, d.month)
    ensures MonthBefore(d.year, d.month, r.year, r.month)
  {
    MonthLengthsAccumulate(d.year, d.month);
    YearLengthsAccumulate(d.year);
    if d.month < 12 then Date(d.year, d.month + 1, 1) else Date(d.year + 1, 1, 1)
  }

  /** Moving `k` days forward inside one month moves the day of the week `k`
      steps around the week. */
  lemma WeekdayShift(year: int, month: int, day: int, k: nat)
    requires ValidDate(Date(year, month, day)) && ValidDate(Date(year, month, day + k))
    ensures DayNumber(Date(year, month, day + k)) == DayNumber(Date(year, month, day)) + k
    ensures Weekday(Date(year, month, day + k)) == (Weekday(Date(year, month, day)) - 1 + k) % 7 + 1
  {
    var n := DayNumber(Date(year, month, day));
    WeekModulus(n, k);
  }

  lemma WeekModulus(n: int, k: int)
    ensures (n + k) % 7 == (n % 7 + k) % 7
  {
    var q := n / 7;
    assert n == 7 * q + n % 7;
    assert n + k == 7 * q + (n % 7 + k);
    var x := n % 7 + k;
    assert x == 7 * (x / 7) + x % 7;
    assert n + k == 7 * (q + x / 7) + x % 7;
  }

  /** `x * c + r` with `0 <= r < c` has quotient `x` and remainder `r`. */
  lemma QuotientOfBlock(x: int, c: int, r: int)
    requires c == 24 || c == 60 || c == 3600
    requires 0 <= r < c
    ensures (x * c + r) / c == x && (x * c + r) % c == r
  {
    if c == 24 {
      assert (x * 24 + r) / 24 == x;
    } else if c == 60 {
      assert (x * 60 + r) / 60 == x;
    } else {
      assert (x * 3600 + r) / 3600 == x;
    }
  }

  /** Two numbers written as `x * c + r` with `0 <= r < c` agree only when both parts agree. */
  lemma BlockParts(x1: int, r1: int, x2: int, r2: int, c: int)
    requires c == 24 || c == 60 || c == 3600
    requires 0 <= r1 < c && 0 <= r2 < c
    requires x1 * c + r1 == x2 * c + r2
    ensures x1 == x2 && r1 == r2
  {
    QuotientOfBlock(x1, c, r1);
    QuotientOfBlock(x2, c, r2);
  }

  /** A number in `[x * c, x * c + c)` has quotient `x`. */
  lemma WithinBlock(x: int, c: int, v: int)
    requires c == 24 || c == 60 || c == 3600
    requires x * c <= v < x * c + c
    ensures v / c == x
  {
    QuotientOfBlock(x, c, v - x * c);
  }

  // ----- wall-clock date-times -----

  /** A local date and time of day, to the second. */
  datatype DateTime = DateTime(year: int, month: int, day: int, hour: int, minute: int, second: int) {
    function Day(): Date {
      Date(year, month, day)
    }
  }

  predicate ValidDateTime(t: DateTime) {
    ValidDate(t.Day()) && 0 <= t.hour < 24 && 0 <= t.minute < 60 && 0 <= t.second < 60
  }

  function AtMidnight(d: Date): DateTime {
    DateTime(d.year, d.month, d.day, 0, 0, 0)
  }

  /** Seconds elapsed since 0001-01-01T00:00:00 on the wall clock. */
  function Instant(t: DateTime): int
    requires ValidDateTime(t)
  {
    DayNumber(t.Day()) * 86400 + t.hour * 3600 + t.minute * 60 + t.second
  }

  /** Wall-clock order: date first, then hour, minute and second. */
  predicate Before(a: DateTime, b: DateTime) {
    DateBefore(a.Day(), b.Day()) ||
    (a.Day() == b.Day() &&
      (a.hour < b.hour ||
      (a.hour == b.hour && (a.minute < b.minute || (a.minute == b.minute && a.second < b.second)))))
  }

  /** The day part and the second of the day can be read back from an instant. */
  lemma InstantParts(t: DateTime)
    requires ValidDateTime(t)
    ensures Instant(t) / 86400 == DayNumber(t.Day())
    ensures Instant(t) % 86400 == t.hour * 3600 + t.minute * 60 + t.second
  {
    var sod := t.hour * 3600 + t.minute * 60 + t.second;
    assert 0 <= sod < 86400;
  }

  /** Instants follow wall-clock order. */
  lemma InstantOrder(a: DateTime, b: DateTime)
    requires ValidDateTime(a) && ValidDateTime(b)
    ensures Instant(a) < Instant(b) <==> Before(a, b)
  {
    DayNumberOrder(a.Day(), b.Day());
    DayNumberOrder(b.Day(), a.Day());
    InstantParts(a);
    InstantParts(b);
    if a.Day() == b.Day() {
      assert Instant(a) - Instant(b) == (a.hour - b.hour) * 3600 + (a.minute - b.minute) * 60 + (a.second - b.second);
    }
  }

  /** Distinct date-times are distinct instants. */
  lemma InstantInjective(a: DateTime, b: DateTime)
    requires ValidDateTime(a) && ValidDateTime(b)
    ensures Instant(a) == Instant(b) <==> a == b
  {
    InstantOrder(a, b);
    InstantOrder(b, a);
  }

  // ----- moving the cursor -----

  function StartOfNextDay(t: DateTime): (r: DateTime)
    requires ValidDateTime(t)
    ensures ValidDateTime(r) && r.Day() == NextDate(t.Day())
    ensures Instant(r) == (DayNumber(t.Day()) + 1) * 86400
  {
    AtMidnight(NextDate(t.Day()))
  }

  function StartOfNextHour(t: DateTime): (r: DateTime)
    requires ValidDateTime(t)
    ensures ValidDateTime(r)
    ensures Instant(r) == Instant(t) - t.minute * 60 - t.second + 3600
  {
    if t.hour < 23 then DateTime(t.year, t.month, t.day, t.hour + 1, 0, 0)
    else StartOfNextDay(t)
  }

  function StartOfNextMinute(t: DateTime): (r: DateTime)
    requires ValidDateTime(t)
    ensures ValidDateTime(r)
    ensures Instant(r) == Instant(t) - t.second + 60
  {
    if t.minute < 59 then DateTime(t.year, t.month, t.day, t.hour, t.minute + 1, 0)
    else StartOfNextHour(t)
  }

  /** One second later, carrying into the minute, hour, day, month and year. */
  function PlusSecond(t: DateTime): (r: DateTime)
    requires ValidDateTime(t)
    ensures ValidDateTime(r)
    ensures Instant(r) == Instant(t) + 1
  {
    if t.second < 59 then DateTime(t.year, t.month, t.day, t.hour, t.minute, t.second + 1)
    else StartOfNextMinute(t)
  }

  function StartOfNextMonth(t: DateTime): (r: DateTime)
    requires ValidDateTime(t)
    ensures ValidDateTime(r) && r.Day() == FirstOfNextMonth(t.Day())
    ensures Instant(r) == (MonthStart(t.year, t.month) + DaysInMonth(t.year, t.month)) * 86400
  {
    AtMidnight(FirstOfNextMonth(t.Day()))
  }

  /** `years` calendar years later at the same time of day; the 29th of
      February becomes the 28th when the target year is not a leap year. */
  function PlusYears(t: DateTime, years: int): (r: DateTime)
    requires ValidDateTime(t)
    ensures ValidDateTime(r)
    ensures r.year == t.year + years && r.month == t.month
    ensures r.hour == t.hour && r.minute == t.minute && r.second == t.second
    ensures r.day == if t.day <= DaysInMonth(r.year, r.month) then t.day else DaysInMonth(r.year, r.month)
  {
    var last := DaysInMonth(t.year + years, t.month);
    DateTime(t.year + years, t.month, t.day, t.hour, t.minute, t.second).(day := if t.day <= last then t.day else last)
  }

  // ----- what a jump of the cursor skips -----

  /** Every instant from `t` up to the start of the next minute has the minute of `t`. */
  lemma SameMinuteUntilNextMinute(t: DateTime, u: DateTime)
    requires ValidDateTime(t) && ValidDateTime(u)
    requires Instant(t) <= Instant(u) < Instant(StartOfNextMinute(t))
    ensures u.minute == t.minute
  {
    var a := DayNumber(t.Day()) * 24 + t.hour;
    var b := DayNumber(u.Day()) * 24 + u.hour;
    assert Instant(t) == (a * 60 + t.minute) * 60 + t.second;
    assert Instant(u) == (b * 60 + u.minute) * 60 + u.second;
    WithinBlock(a * 60 + t.minute, 60, Instant(u));
    QuotientOfBlock(b * 60 + u.minute, 60, u.second);
    BlockParts(a, t.minute, b, u.minute, 60);
  }

  /** Every instant from `t` up to the start of the next hour has the hour of `t`. */
  lemma SameHourUntilNextHour(t: DateTime, u: DateTime)
    requires ValidDateTime(t) && ValidDateTime(u)
    requires Instant(t) <= Instant(u) < Instant(StartOfNextHour(t))
    ensures u.hour == t.hour
  {
    var a := DayNumber(t.Day()) * 24 + t.hour;
    var b := DayNumber(u.Day()) * 24 + u.hour;
    var rt := t.minute * 60 + t.second;
    var ru := u.minute * 60 + u.second;
    assert Instant(t) == a * 3600 + rt;
    assert Instant(u) == b * 3600 + ru;
    WithinBlock(a, 3600, Instant(u));
    QuotientOfBlock(b, 3600, ru);
    BlockParts(DayNumber(t.Day()), t.hour, DayNumber(u.Day()), u.hour, 24);
  }

  /** Every instant from `t` up to the next midnight lies on the date of `t`. */
  lemma SameDateUntilNextDay(t: DateTime, u: DateTime)
    requires ValidDateTime(t) && ValidDateTime(u)
    requires Instant(t) <= Instant(u) < Instant(StartOfNextDay(t))
    ensures u.Day() == t.Day()
  {
    InstantParts(t);
    InstantParts(u);
    DayNumberInjective(t.Day(), u.Day());
  }

  /** Every instant from `t` up to the first of the next month lies in the month of `t`. */
  lemma SameMonthUntilNextMonth(t: DateTime, u: DateTime)
    requires ValidDateTime(t) && ValidDateTime(u)
    requires Instant(t) <= Instant(u) < Instant(StartOfNextMonth(t))
    ensures u.year == t.year && u.month == t.month
  {
    InstantParts(t);
    InstantParts(u);
    DateInMonthBlock(u.Day(), t.year, t.month);
  }
}
