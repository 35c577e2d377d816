/** nextTimeAfter: the search for the first selected time strictly after a
    reference time, bounded by a barrier. */
module NextTime {
  import opened Results
  import opened Calendar
  import opened CronExpressions

  /** No valid time whose instant lies in [lo, hi) is selected. */
  ghost predicate NoMatchIn(e: CronExpression, lo: int, hi: int) {
    forall t :: ValidDateTime(t) && lo <= Instant(t) < hi ==> !e.Matches(t)
  }

  /** `t` is the earliest selected time strictly after `after`. */
  ghost predicate IsNext(e: CronExpression, after: DateTime, t: DateTime)
    requires ValidDateTime(after)
  {
    ValidDateTime(t) && Instant(after) < Instant(t) && e.Matches(t) &&
    NoMatchIn(e, Instant(after) + 1, Instant(t))
  }

  // ----- what one step of the cursor skips -----

  lemma SecondSkip(e: CronExpression, c: DateTime)
    requires ValidDateTime(c) && !e.second.Matches(c.second)
    ensures NoMatchIn(e, Instant(c), Instant(PlusSecond(c)))
  {
    forall t | ValidDateTime(t) && Instant(c) <= Instant(t) < Instant(PlusSecond(c))
      ensures !e.Matches(t)
    {
      InstantInjective(c, t);
    }
  }

  lemma MinuteSkip(e: CronExpression, c: DateTime)
    requires ValidDateTime(c) && !e.minute.Matches(c.minute)
    ensures NoMatchIn(e, Instant(c), Instant(StartOfNextMinute(c)))
  {
    forall t | ValidDateTime(t) && Instant(c) <= Instant(t) < Instant(StartOfNextMinute(c))
      ensures !e.Matches(t)
    {
      SameMinuteUntilNextMinute(c, t);
    }
  }

  lemma HourSkip(e: CronExpression, c: DateTime)
    requires ValidDateTime(c) && !e.hour.Matches(c.hour)
    ensures NoMatchIn(e, Instant(c), Instant(StartOfNextHour(c)))
  {
    forall t | ValidDateTime(t) && Instant(c) <= Instant(t) < Instant(StartOfNextHour(c))
      ensures !e.Matches(t)
    {
      SameHourUntilNextHour(c, t);
    }
  }

  lemma DaySkip(e: CronExpression, c: DateTime)
    requires ValidDateTime(c) && !(e.dayOfMonth.Matches(c.Day()) && e.dayOfWeek.Matches(c.Day()))
    ensures NoMatchIn(e, Instant(c), Instant(StartOfNextDay(c)))
  {
    forall t | ValidDateTime(t) && Instant(c) <= Instant(t) < Instant(StartOfNextDay(c))
      ensures !e.Matches(t)
    {
      SameDateUntilNextDay(c, t);
    }
  }

  lemma MonthSkip(e: CronExpression, c: DateTime)
    requires ValidDateTime(c) && !e.month.Matches(c.month)
    ensures NoMatchIn(e, Instant(c), Instant(StartOfNextMonth(c)))
  {
    forall t | ValidDateTime(t) && Instant(c) <= Instant(t) < Instant(StartOfNextMonth(c))
      ensures !e.Matches(t)
    {
      SameMonthUntilNextMonth(c, t);
    }
  }

  lemma JoinNoMatch(e: CronExpression, lo: int, mid: int, hi: int)
    requires NoMatchIn(e, lo, mid) && NoMatchIn(e, mid, hi)
    ensures NoMatchIn(e, lo, hi)
  {
  }

  // ----- the search -----

  /** Moves a cursor forward from one second after `after`: while the cursor is
      not selected, the coarsest field that rejects it decides the jump, to
      the next second, minute, hour, day or month. Gives up once the cursor is
      past `limit`. */
  method SearchUntil(e: CronExpression, after: DateTime, limit: int) returns (r: Result<DateTime>)
    requires ValidDateTime(after)
    ensures r.Ok? ==> IsNext(e, after, r.value) && Instant(r.value) <= limit
    ensures r.Err? ==> r.error == NoSatisfyingTime && NoMatchIn(e, Instant(after) + 1, limit + 1)
  {
    var cursor := PlusSecond(after);
    while Instant(cursor) <= limit
      invariant ValidDateTime(cursor) && Instant(after) < Instant(cursor)
      invariant NoMatchIn(e, Instant(after) + 1, Instant(cursor))
      decreases limit - Instant(cursor)
    {
      var next: DateTime;
      if !e.month.Matches(cursor.month) {
        next := StartOfNextMonth(cursor);
        MonthSkip(e, cursor);
      } else if !(e.dayOfMonth.Matches(cursor.Day()) && e.dayOfWeek.Matches(cursor.Day())) {
        next := StartOfNextDay(cursor);
        DaySkip(e, cursor);
      } else if !e.hour.Matches(cursor.hour) {
        next := StartOfNextHour(cursor);
        HourSkip(e, cursor);
      } else if !e.minute.Matches(cursor.minute) {
        next := StartOfNextMinute(cursor);
        MinuteSkip(e, cursor);
      } else if !e.second.Matches(cursor.second) {
        next := PlusSecond(cursor);
        SecondSkip(e, cursor);
      } else {
        return Ok(cursor);
      }
      assert Instant(cursor) < Instant(next) by { InstantParts(cursor); }
      JoinNoMatch(e, Instant(after) + 1, Instant(cursor), Instant(next));
      cursor := next;
    }
    return Err(NoSatisfyingTime);
  }

  /** nextTimeAfter(reference): searches up to four calendar years ahead. */
  method NextTimeAfter(e: CronExpression, after: DateTime) returns (r: Result<DateTime>)
    requires ValidDateTime(after)
    ensures r.Ok? ==> IsNext(e, after, r.value) && Instant(r.value) <= Instant(PlusYears(after, 4))
    ensures r.Err? ==> r.error == NoSatisfyingTime && NoMatchIn(e, Instant(after) + 1, Instant(PlusYears(after, 4)) + 1)
  {
    r := SearchUntil(e, after, Instant(PlusYears(after, 4)));
  }

  /** nextTimeAfter(reference, barrier): searches up to the barrier time. */
  method NextTimeAfterUntil(e: CronExpression, after: DateTime, barrier: DateTime) returns (r: Result<DateTime>)
    requires ValidDateTime(after) && ValidDateTime(barrier)
    ensures r.Ok? ==> IsNext(e, after, r.value) && Instant(r.value) <= Instant(barrier)
    ensures r.Err? ==> r.error == NoSatisfyingTime && NoMatchIn(e, Instant(after) + 1, Instant(barrier) + 1)
  {
    r := SearchUntil(e, after, Instant(barrier));
  }

  /** nextTimeAfter(reference, durationInMillis): the barrier is the reference
      plus the duration; candidates are whole seconds, so the milliseconds
      beyond the last whole second of the barrier never matter. */
  method NextTimeAfterWithin(e: CronExpression, after: DateTime, millis: int) returns (r: Result<DateTime>)
    requires ValidDateTime(after)
    ensures r.Ok? ==> IsNext(e, after, r.value) && Instant(r.value) * 1000 <= Instant(after) * 1000 + millis
    ensures r.Err? ==> r.error == NoSatisfyingTime
    ensures r.Err? ==> forall t :: ValidDateTime(t) && Instant(after) < Instant(t) && Instant(t) * 1000 <= Instant(after) * 1000 + millis ==> !e.Matches(t)
  {
    r := SearchUntil(e, after, Instant(after) + millis / 1000);
  }

  // ----- properties of the result -----

  /** There is at most one next time. */
  lemma NextIsUnique(e: CronExpression, after: DateTime, t1: DateTime, t2: DateTime)
    requires ValidDateTime(after) && IsNext(e, after, t1) && IsNext(e, after, t2)
    ensures t1 == t2
  {
    InstantInjective(t1, t2);
  }

  /** A later reference never gives an earlier next time, and a reference that
      is still before the first next time gives the same one. */
  lemma NextIsMonotone(e: CronExpression, a1: DateTime, a2: DateTime, t1: DateTime, t2: DateTime)
    requires ValidDateTime(a1) && ValidDateTime(a2) && Instant(a1) <= Instant(a2)
    requires IsNext(e, a1, t1) && IsNext(e, a2, t2)
    ensures Instant(t1) <= Instant(t2)
    ensures Instant(a2) < Instant(t1) ==> t1 == t2
  {
    if Instant(a2) < Instant(t1) {
      InstantInjective(t1, t2);
    }
  }

  /** Asking again from a result gives the following selected time: nothing
      selected lies strictly between the reference and the second result other
      than the first result. */
  lemma NextOfNext(e: CronExpression, a: DateTime, t1: DateTime, t2: DateTime)
    requires ValidDateTime(a) && IsNext(e, a, t1) && IsNext(e, t1, t2)
    ensures Instant(a) < Instant(t1) < Instant(t2)
    ensures forall t :: ValidDateTime(t) && Instant(a) < Instant(t) < Instant(t2) && e.Matches(t) ==> t == t1
  {
    forall t | ValidDateTime(t) && Instant(a) < Instant(t) < Instant(t2) && e.Matches(t)
      ensures t == t1
    {
      InstantInjective(t, t1);
    }
  }
}
