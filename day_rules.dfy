/** The calendar-dependent field forms (`L`, `nW`, `dL`, `d#k`) proved against
    definitions that say what they mean in words: the last day of the month,
    the nearest weekday, the last such weekday, the k-th such weekday. */
module DayRules {
  import opened Calendar
  import opened Fields

  function Distance(a: int, b: int): nat {
    if a <= b then b - a else a - b
  }

  /** Two days of one month fall on the same weekday exactly when they are a
      whole number of weeks apart. */
  lemma SameWeekdayIff(year: int, month: int, a: int, b: int)
    requires ValidDate(Date(year, month, a)) && ValidDate(Date(year, month, b)) && a <= b
    ensures Weekday(Date(year, month, a)) == Weekday(Date(year, month, b)) <==> (b - a) % 7 == 0
  {
    WeekdayShift(year, month, a, b - a);
    assert a + (b - a) == b;
    ShiftMod(Weekday(Date(year, month, a)) - 1, b - a);
  }

  /** Moving `k` days on from weekday index `w` comes back to `w` only after whole weeks. */
  lemma ShiftMod(w: int, k: nat)
    requires 0 <= w < 7
    ensures (w + k) % 7 == w <==> k % 7 == 0
  {
    WeekModulus(k, w);
    var r := k % 7;
    assert (w + k) % 7 == (w + r) % 7;
    if w + r < 7 {
      assert (w + r) % 7 == w + r;
    } else {
      assert (w + r) % 7 == w + r - 7;
    }
  }

  // ----- L -----

  /** `L` selects the day after which a new month begins. */
  lemma LastDayStartsNewMonth(d: Date)
    requires ValidDate(d)
    ensures DomPartMatches(DomLast(0), d) <==> NextDate(d).day == 1 && NextDate(d).month != d.month
  {
    if d.day < DaysInMonth(d.year, d.month) {
      assert NextDate(d) == Date(d.year, d.month, d.day + 1);
    }
  }

  // ----- nW -----

  /** The chosen day is a weekday of the same month; it is day n itself when
      that is a weekday, and every other weekday of the month is farther from n. */
  lemma NearestWeekdayIsNearest(year: int, month: int, n: int)
    requires ValidDate(Date(year, month, n))
    ensures var r := NearestWeekday(year, month, n);
      ValidDate(Date(year, month, r)) && Weekday(Date(year, month, r)) <= 5 &&
      (Weekday(Date(year, month, n)) <= 5 ==> r == n) &&
      forall e :: ValidDate(Date(year, month, e)) && Weekday(Date(year, month, e)) <= 5 && e != r ==>
        Distance(e, n) > Distance(r, n)
  {
    NearestIsWeekday(year, month, n);
    var r := NearestWeekday(year, month, n);
    forall e | ValidDate(Date(year, month, e)) && Weekday(Date(year, month, e)) <= 5 && e != r
      ensures Distance(e, n) > Distance(r, n)
    {
      NearestBeatsOthers(year, month, n, e);
    }
  }

  lemma NearestIsWeekday(year: int, month: int, n: int)
    requires ValidDate(Date(year, month, n))
    ensures var r := NearestWeekday(year, month, n);
      ValidDate(Date(year, month, r)) && Weekday(Date(year, month, r)) <= 5 &&
      (Weekday(Date(year, month, n)) <= 5 ==> r == n) && Distance(r, n) <= 2
  {
    var w := Weekday(Date(year, month, n));
    if w == 6 && n == 1 {
      WeekdayShift(year, month, 1, 2);
    } else if w == 6 {
      WeekdayShift(year, month, n - 1, 1);
    } else if w == 7 && n == DaysInMonth(year, month) {
      WeekdayShift(year, month, n - 2, 2);
    } else if w == 7 {
      WeekdayShift(year, month, n, 1);
    }
  }

  lemma NearestBeatsOthers(year: int, month: int, n: int, e: int)
    requires ValidDate(Date(year, month, n)) && ValidDate(Date(year, month, e))
    requires Weekday(Date(year, month, e)) <= 5 && e != NearestWeekday(year, month, n)
    ensures Distance(e, n) > Distance(NearestWeekday(year, month, n), n)
  {
    NearestIsWeekday(year, month, n);
    if e < n {
      WeekdayShift(year, month, e, n - e);
      assert e + (n - e) == n;
    } else {
      WeekdayShift(year, month, n, e - n);
      assert n + (e - n) == e;
    }
  }

  // ----- dL -----

  /** `dL` holds on weekday d when no later day of the month is also a d. */
  lemma LastWeekdayIsLast(w: int, d: Date)
    requires ValidDate(d)
    ensures DowPartMatches(DowLast(w), d) <==>
      Weekday(d) == w &&
      forall e :: d.day < e <= DaysInMonth(d.year, d.month) ==> Weekday(Date(d.year, d.month, e)) != w
  {
    var last := DaysInMonth(d.year, d.month);
    if Weekday(d) == w {
      if d.day + 7 > last {
        forall e | d.day < e <= last
          ensures Weekday(Date(d.year, d.month, e)) != w
        {
          SameWeekdayIff(d.year, d.month, d.day, e);
        }
      } else {
        SameWeekdayIff(d.year, d.month, d.day, d.day + 7);
        assert Weekday(Date(d.year, d.month, d.day + 7)) == w;
      }
    }
  }

  // ----- d#k -----

  /** How many of the days 1..upTo of the month fall on weekday w. */
  function Occurrences(year: int, month: int, w: int, upTo: int): nat
    requires 1 <= month <= 12 && 0 <= upTo <= DaysInMonth(year, month)
    decreases upTo
  {
    if upTo == 0 then 0
    else Occurrences(year, month, w, upTo - 1) + (if Weekday(Date(year, month, upTo)) == w then 1 else 0)
  }

  lemma {:induction false} NoneBetween(year: int, month: int, w: int, lo: int, hi: int)
    requires 1 <= month <= 12 && 0 <= lo <= hi <= DaysInMonth(year, month)
    requires forall e :: lo < e <= hi ==> Weekday(Date(year, month, e)) != w
    ensures Occurrences(year, month, w, hi) == Occurrences(year, month, w, lo)
    decreases hi - lo
  {
    if lo < hi {
      NoneBetween(year, month, w, lo, hi - 1);
    }
  }

  /** A day is the ((day - 1) / 7 + 1)-th of its weekday in its month. */
  lemma {:induction false} OccurrenceNumber(year: int, month: int, day: int)
    requires ValidDate(Date(year, month, day))
    ensures Occurrences(year, month, Weekday(Date(year, month, day)), day) == (day - 1) / 7 + 1
    decreases day
  {
    var w := Weekday(Date(year, month, day));
    var lo := if day > 7 then day - 7 else 0;
    forall e | lo < e <= day - 1
      ensures Weekday(Date(year, month, e)) != w
    {
      SameWeekdayIff(year, month, e, day);
    }
    NoneBetween(year, month, w, lo, day - 1);
    if day > 7 {
      SameWeekdayIff(year, month, day - 7, day);
      OccurrenceNumber(year, month, day - 7);
    }
  }

  /** `d#k` holds on the k-th weekday d of the month, counting from day 1. */
  lemma NthWeekdayIsNth(w: int, k: nat, d: Date)
    requires ValidDate(d)
    ensures DowPartMatches(DowNth(w, k), d) <==>
      Weekday(d) == w && Occurrences(d.year, d.month, w, d.day) == k
  {
    if Weekday(d) == w {
      OccurrenceNumber(d.year, d.month, d.day);
    }
  }
}
