/** Worked instances: the leap-day expression against the default, explicit and
    duration barriers, a date that never exists, and an increment that runs
    past the end of its field without carrying into the next one, and a
    weekday number searched from a Sunday, and the lists and increments of the
    day fields. */
module Examples {
  import opened Results
  import opened Text
  import opened Calendar
  import opened FieldKinds
  import opened FieldSyntax
  import opened Fields
  import opened FieldMeaning
  import opened CronExpressions
  import opened NextTime

  // ----- the 29th of February -----

  const Reference := DateTime(2012, 3, 1, 0, 0, 0)
  const LeapDay := DateTime(2016, 2, 29, 0, 0, 0)
  const OneYearLater := DateTime(2013, 3, 1, 0, 0, 0)
  /** 356 days of milliseconds, twice. */
  const TwoYearsInMillis := 1000 * 60 * 60 * 24 * 356 * 2

  /** The expression selects times on the 29th of February only. */
  ghost predicate OnlyLeapDays(e: CronExpression) {
    forall t :: ValidDateTime(t) && e.Matches(t) ==> t.month == 2 && t.day == 29
  }

  /** From March 2012 the next 29th of February is in 2016. */
  lemma NoLeapDayBetween(t: DateTime)
    requires ValidDateTime(t) && Instant(Reference) < Instant(t) < Instant(LeapDay)
    ensures !(t.month == 2 && t.day == 29)
  {
    InstantOrder(Reference, t);
    InstantOrder(t, LeapDay);
  }

  lemma FirstLeapDay(e: CronExpression)
    requires OnlyLeapDays(e) && e.Matches(LeapDay)
    ensures IsNext(e, Reference, LeapDay)
  {
    InstantOrder(Reference, LeapDay);
    forall t | ValidDateTime(t) && Instant(Reference) + 1 <= Instant(t) < Instant(LeapDay)
      ensures !e.Matches(t)
    {
      NoLeapDayBetween(t);
    }
  }

  /** The leap day is inside the four-year barrier and outside the two shorter ones. */
  lemma LeapDayAgainstBarriers()
    ensures Instant(LeapDay) <= Instant(PlusYears(Reference, 4))
    ensures Instant(OneYearLater) < Instant(LeapDay)
    ensures Instant(Reference) * 1000 + TwoYearsInMillis < Instant(LeapDay) * 1000
  {
    assert PlusYears(Reference, 4) == DateTime(2016, 3, 1, 0, 0, 0);
    InstantOrder(LeapDay, DateTime(2016, 3, 1, 0, 0, 0));
    InstantOrder(OneYearLater, LeapDay);
    assert DayNumber(LeapDay.Day()) - DayNumber(Reference.Day()) == 1460;
  }

  /** `S * * D 2 *`: seconds `S`, every minute and hour, day `D` of February, any weekday. */
  function FebruaryDay(seconds: Range, day: int): CronExpression {
    CronExpression(
      SimpleField(Second, [seconds]), SimpleField(Minute, [Range(0, 59, 1)]), SimpleField(Hour, [Range(0, 23, 1)]),
      DomParts([DomRange(Range(day, day, 1))]), SimpleField(Month, [Range(2, 2, 1)]),
      DowParts([DowRange(Range(1, 7, 1))]))
  }

  // One field text at a time, so that each literal is unfolded in a small context.

  lemma StarSimple(kind: FieldKind, text: string)
    requires text == "*"
    ensures ParseSimple(kind, text) == Ok(SimpleField(kind, [Range(From(kind), To(kind), 1)]))
  {
    OneRangeMeaning(kind, Star, Range(From(kind), To(kind), 1), text);
  }

  lemma NumberSimple(kind: FieldKind, n: nat, text: string)
    requires From(kind) <= n <= To(kind) && text == ShowNat(n)
    ensures ParseSimple(kind, text) == Ok(SimpleField(kind, [Range(n, n, 1)]))
  {
    OneRangeMeaning(kind, Single(Number(n)), Range(n, n, 1), text);
  }

  lemma StarDayOfMonth(text: string)
    requires text == "*"
    ensures ParseDayOfMonth(text) == Ok(DomParts([DomRange(Range(1, 31, 1))]))
  {
    DomOfOnePiece(Star, text);
  }

  lemma NumberDayOfMonth(n: nat, text: string)
    requires 1 <= n <= 31 && text == ShowNat(n)
    ensures ParseDayOfMonth(text) == Ok(DomParts([DomRange(Range(n, n, 1))]))
  {
    DomOfOnePiece(Single(Number(n)), text);
  }

  lemma StarDayOfWeek(text: string)
    requires text == "*"
    ensures ParseDayOfWeek(text) == Ok(DowParts([DowRange(Range(1, 7, 1))]))
  {
    DowOfOnePiece(Star, text);
  }

  /** The common fields of the leap-day and non-existing-date texts. */
  lemma FebruaryFields(fields: seq<string>, day: nat)
    requires |fields| == 6 && fields[1] == "*" && fields[2] == "*" && fields[4] == ShowNat(2) && fields[5] == "*"
    requires 1 <= day <= 31 && fields[3] == ShowNat(day)
    ensures ParseSimple(Minute, fields[1]) == Ok(SimpleField(Minute, [Range(0, 59, 1)]))
    ensures ParseSimple(Hour, fields[2]) == Ok(SimpleField(Hour, [Range(0, 23, 1)]))
    ensures ParseDayOfMonth(fields[3]) == Ok(DomParts([DomRange(Range(day, day, 1))]))
    ensures ParseSimple(Month, fields[4]) == Ok(SimpleField(Month, [Range(2, 2, 1)]))
    ensures ParseDayOfWeek(fields[5]) == Ok(DowParts([DowRange(Range(1, 7, 1))]))
  {
    StarSimple(Minute, fields[1]);
    StarSimple(Hour, fields[2]);
    NumberDayOfMonth(day, fields[3]);
    NumberSimple(Month, 2, fields[4]);
    StarDayOfWeek(fields[5]);
  }

  /** `* * * D 2 *` for D = 29 or 30, and the same with second 0. */
  lemma FebruaryDayFields(fields: seq<string>, day: nat)
    requires |fields| == 6 && (fields[0] == "*" || fields[0] == "0") && fields[1] == "*" && fields[2] == "*"
    requires (day == 29 && fields[3] == "29") || (day == 30 && fields[3] == "30")
    requires fields[4] == "2" && fields[5] == "*"
    ensures ParseFields(fields) == Ok(FebruaryDay(if fields[0] == "*" then Range(0, 59, 1) else Range(0, 0, 1), day))
  {
    if fields[0] == "*" {
      StarSimple(Second, fields[0]);
    } else {
      assert ShowNat(0) == "0";
      NumberSimple(Second, 0, fields[0]);
    }
    assert ShowNat(29) == "29" && ShowNat(30) == "30" && ShowNat(2) == "2";
    FebruaryFields(fields, day);
  }

  lemma LeapDayExpression(text: string)
    requires text == "* * * 29 2 *"
    ensures Create(Some(text)) == Ok(FebruaryDay(Range(0, 59, 1), 29))
    ensures CreateWithoutSeconds(Some(text)) == Err(FieldCountMismatch(5, 6))
  {
    var six := ["*", "*", "*", "29", "2", "*"];
    assert Join(six, ' ') == text;
    assert forall i :: 0 <= i < |six| ==> IsWord(six[i]);
    WordsOfJoin(six);
    FebruaryDayFields(six, 29);
  }

  lemma LeapDayWithoutSeconds(text: string)
    requires text == "* * 29 2 *"
    ensures CreateWithoutSeconds(Some(text)) == Ok(FebruaryDay(Range(0, 0, 1), 29))
  {
    var five := ["*", "*", "29", "2", "*"];
    assert Join(five, ' ') == text;
    assert forall i :: 0 <= i < |five| ==> IsWord(five[i]);
    WordsOfJoin(five);
    FebruaryDayFields(["0"] + five, 29);
  }

  /** The expression selects times on the given day of February only. */
  lemma FebruaryDayOnly(seconds: Range, day: int)
    ensures forall t :: ValidDateTime(t) && FebruaryDay(seconds, day).Matches(t) ==> t.month == 2 && t.day == day
  {
    var e := FebruaryDay(seconds, day);
    forall t | ValidDateTime(t) && e.Matches(t)
      ensures t.month == 2 && t.day == day
    {
      assert DomPartMatches(e.dayOfMonth.parts[0], t.Day());
      assert e.month.ranges[0].Contains(t.month);
    }
  }

  /** Both leap-day expressions select 2016-02-29 at midnight and nothing off the 29th of February. */
  lemma LeapDaySelection(seconds: Range)
    requires seconds.Contains(0)
    ensures OnlyLeapDays(FebruaryDay(seconds, 29)) && FebruaryDay(seconds, 29).Matches(LeapDay)
  {
    FebruaryDayOnly(seconds, 29);
    var e := FebruaryDay(seconds, 29);
    var d := LeapDay.Day();
    assert e.second.Matches(0) && e.minute.Matches(0) && e.hour.Matches(0) && e.month.Matches(2) by {
      assert e.second.ranges[0].Contains(0) && e.minute.ranges[0].Contains(0) && e.hour.ranges[0].Contains(0);
      assert e.month.ranges[0].Contains(2);
    }
    assert e.dayOfMonth.Matches(d) by {
      assert DomPartMatches(e.dayOfMonth.parts[0], d);
    }
    assert e.dayOfWeek.Matches(d) by {
      assert DowPartMatches(e.dayOfWeek.parts[0], d);
    }
  }

  /** With the default barrier the search reaches 2016-02-29. */
  method DefaultBarrierFindsLeapDay(e: CronExpression) returns (r: Result<DateTime>)
    requires OnlyLeapDays(e) && e.Matches(LeapDay)
    ensures r == Ok(LeapDay)
  {
    r := NextTimeAfter(e, Reference);
    FirstLeapDay(e);
    LeapDayAgainstBarriers();
    if r.Ok? {
      NextIsUnique(e, Reference, r.value, LeapDay);
    }
  }

  /** A barrier one year ahead stops the search before 2016. */
  method OneYearBarrierFails(e: CronExpression) returns (r: Result<DateTime>)
    requires OnlyLeapDays(e) && e.Matches(LeapDay)
    ensures r == Err(NoSatisfyingTime)
  {
    r := NextTimeAfterUntil(e, Reference, OneYearLater);
    FirstLeapDay(e);
    LeapDayAgainstBarriers();
  }

  /** A barrier 712 days ahead, given in milliseconds, stops it too. */
  method TwoYearDurationFails(e: CronExpression) returns (r: Result<DateTime>)
    requires OnlyLeapDays(e) && e.Matches(LeapDay)
    ensures r == Err(NoSatisfyingTime)
  {
    r := NextTimeAfterWithin(e, Reference, TwoYearsInMillis);
    FirstLeapDay(e);
    LeapDayAgainstBarriers();
  }

  // ----- the 30th of February -----

  lemma FebruaryThirtiethExpression(text: string)
    requires text == "* * * 30 2 *"
    ensures Create(Some(text)) == Ok(FebruaryDay(Range(0, 59, 1), 30))
  {
    var six := ["*", "*", "*", "30", "2", "*"];
    assert Join(six, ' ') == text;
    assert forall i :: 0 <= i < |six| ==> IsWord(six[i]);
    WordsOfJoin(six);
    FebruaryDayFields(six, 30);
  }

  /** February never has a 30th, so the expression selects nothing. */
  lemma FebruaryThirtiethNeverMatches(seconds: Range)
    ensures forall t :: ValidDateTime(t) ==> !FebruaryDay(seconds, 30).Matches(t)
  {
    FebruaryDayOnly(seconds, 30);
  }

  /** Whatever the reference time, the search for a date that does not exist fails. */
  method NonExistingDateFails(after: DateTime) returns (r: Result<DateTime>)
    requires ValidDateTime(after)
    ensures r == Err(NoSatisfyingTime)
  {
    var text := "* * * 30 2 *";
    FebruaryThirtiethExpression(text);
    FebruaryThirtiethNeverMatches(Range(0, 59, 1));
    r := NextTimeAfter(Create(Some(text)).value, after);
  }

  // ----- an increment larger than its field -----

  const TenToTheMinute := DateTime(2012, 4, 10, 13, 0, 50)
  const TenPast := DateTime(2012, 4, 10, 13, 1, 10)

  /** `10/100 * * * * *`: the second field holds 10 only, every other field is `*`. */
  function TenthSecond(): CronExpression {
    CronExpression(
      SimpleField(Second, [Range(10, 59, 100)]), SimpleField(Minute, [Range(0, 59, 1)]), SimpleField(Hour, [Range(0, 23, 1)]),
      DomParts([DomRange(Range(1, 31, 1))]), SimpleField(Month, [Range(1, 12, 1)]),
      DowParts([DowRange(Range(1, 7, 1))]))
  }

  lemma TenEveryHundred(text: string)
    requires text == "10/100"
    ensures ParseSimple(Second, text) == Ok(SimpleField(Second, [Range(10, 59, 100)]))
  {
    assert ShowPiece(Stepped(Number(10), 100)) == "10/100";
    OneRangeMeaning(Second, Stepped(Number(10), 100), Range(10, 59, 100), text);
  }

  lemma LargeIncrementFields(fields: seq<string>)
    requires |fields| == 6 && fields[0] == "10/100" && fields[1] == "*" && fields[2] == "*"
    requires fields[3] == "*" && fields[4] == "*" && fields[5] == "*"
    ensures ParseFields(fields) == Ok(TenthSecond())
  {
    TenEveryHundred(fields[0]);
    StarSimple(Minute, fields[1]);
    StarSimple(Hour, fields[2]);
    StarDayOfMonth(fields[3]);
    StarSimple(Month, fields[4]);
    StarDayOfWeek(fields[5]);
  }

  lemma LargeSecondIncrement(text: string)
    requires text == "10/100 * * * * *"
    ensures Create(Some(text)) == Ok(TenthSecond())
  {
    var six := ["10/100", "*", "*", "*", "*", "*"];
    assert Join(six, ' ') == text;
    assert forall i :: 0 <= i < |six| ==> IsWord(six[i]);
    WordsOfJoin(six);
    LargeIncrementFields(six);
  }

  /** An increment of 100 from 10 in the second field reaches no value past 10. */
  lemma TenthSecondMatches(t: DateTime)
    requires ValidDateTime(t)
    ensures TenthSecond().Matches(t) <==> t.second == 10
  {
    var e := TenthSecond();
    assert e.second.Matches(t.second) <==> t.second == 10 by {
      assert e.second.ranges[0] == Range(10, 59, 100);
    }
    assert e.minute.ranges[0].Contains(t.minute) && e.hour.ranges[0].Contains(t.hour);
    assert e.month.ranges[0].Contains(t.month);
    assert DomPartMatches(e.dayOfMonth.parts[0], t.Day()) && DowPartMatches(e.dayOfWeek.parts[0], t.Day());
  }

  /** From 13:00:50 the next second 10 is at 13:01:10: the increment does not
      spill over into the minute. */
  lemma NextTenPast(e: CronExpression)
    requires forall t :: ValidDateTime(t) ==> (e.Matches(t) <==> t.second == 10)
    ensures IsNext(e, TenToTheMinute, TenPast)
  {
    InstantOrder(TenToTheMinute, TenPast);
    forall t | ValidDateTime(t) && Instant(TenToTheMinute) + 1 <= Instant(t) < Instant(TenPast)
      ensures !e.Matches(t)
    {
      InstantOrder(TenToTheMinute, t);
      InstantOrder(t, TenPast);
    }
  }

  /** The search for `10/100 * * * * *` from 13:00:50 stops at 13:01:10. */
  method LargeIncrementWaitsForNextMinute() returns (r: Result<DateTime>)
    ensures r == Ok(TenPast)
  {
    var e := TenthSecond();
    forall t | ValidDateTime(t)
      ensures e.Matches(t) <==> t.second == 10
    {
      TenthSecondMatches(t);
    }
    r := NextTimeAfter(e, TenToTheMinute);
    NextTenPast(e);
    InstantOrder(TenPast, PlusYears(TenToTheMinute, 4));
    if r.Ok? {
      NextIsUnique(e, TenToTheMinute, r.value, TenPast);
    }
  }

  // ----- a weekday number -----

  const AprilFirst := DateTime(2012, 4, 1, 0, 0, 0)
  const AprilFourth := DateTime(2012, 4, 4, 0, 0, 0)

  /** The calendar's weekdays agree with 2012: the 1st of April is a Sunday, so the
      4th is a Wednesday, and the 29th of February was a Wednesday too. */
  lemma WeekdaysOf2012()
    ensures Weekday(Date(2012, 4, 1)) == 7 && Weekday(Date(2012, 4, 2)) == 1 && Weekday(Date(2012, 4, 3)) == 2
    ensures Weekday(Date(2012, 4, 4)) == 3
    ensures Weekday(Date(2012, 2, 29)) == 3
  {
    assert DayNumber(Date(2012, 4, 1)) == 734593;
    WeekdayShift(2012, 4, 1, 1);
    WeekdayShift(2012, 4, 1, 2);
    WeekdayShift(2012, 4, 1, 3);
    assert DayNumber(Date(2012, 2, 29)) == 734561;
  }

  /** `0 0 0 * * 3`: midnight on every Wednesday. */
  function MidnightWednesday(): CronExpression {
    CronExpression(
      SimpleField(Second, [Range(0, 0, 1)]), SimpleField(Minute, [Range(0, 0, 1)]), SimpleField(Hour, [Range(0, 0, 1)]),
      DomParts([DomRange(Range(1, 31, 1))]), SimpleField(Month, [Range(1, 12, 1)]),
      DowParts([DowRange(Range(3, 3, 1))]))
  }

  lemma ZeroSimple(kind: FieldKind, text: string)
    requires kind in {Second, Minute, Hour} && text == "0"
    ensures ParseSimple(kind, text) == Ok(SimpleField(kind, [Range(0, 0, 1)]))
  {
    assert ShowNat(0) == "0";
    NumberSimple(kind, 0, text);
  }

  lemma WeekdayThree(text: string)
    requires text == "3"
    ensures ParseDayOfWeek(text) == Ok(DowParts([DowRange(Range(3, 3, 1))]))
  {
    assert ShowNat(3) == "3";
    assert FieldValue(DayOfWeek, Number(3)) == Ok(3);
    DowOfOnePiece(Single(Number(3)), text);
  }

  lemma WednesdayFields(fields: seq<string>)
    requires |fields| == 6 && fields[0] == "0" && fields[1] == "0" && fields[2] == "0"
    requires fields[3] == "*" && fields[4] == "*" && fields[5] == "3"
    ensures ParseFields(fields) == Ok(MidnightWednesday())
  {
    ZeroSimple(Second, fields[0]);
    ZeroSimple(Minute, fields[1]);
    ZeroSimple(Hour, fields[2]);
    StarDayOfMonth(fields[3]);
    StarSimple(Month, fields[4]);
    WeekdayThree(fields[5]);
  }

  lemma WednesdayExpression(text: string)
    requires text == "0 0 0 * * 3"
    ensures Create(Some(text)) == Ok(MidnightWednesday())
  {
    var six := ["0", "0", "0", "*", "*", "3"];
    assert Join(six, ' ') == text;
    assert forall i :: 0 <= i < |six| ==> IsWord(six[i]);
    WordsOfJoin(six);
    WednesdayFields(six);
  }

  /** Weekday 3 selects Wednesdays, and only at midnight. */
  lemma MidnightWednesdayMatches(t: DateTime)
    requires ValidDateTime(t)
    ensures MidnightWednesday().Matches(t) <==> t.hour == 0 && t.minute == 0 && t.second == 0 && Weekday(t.Day()) == 3
  {
    var e := MidnightWednesday();
    assert e.second.ranges[0] == Range(0, 0, 1) && e.minute.ranges[0] == Range(0, 0, 1) && e.hour.ranges[0] == Range(0, 0, 1);
    assert e.month.ranges[0].Contains(t.month);
    assert DomPartMatches(e.dayOfMonth.parts[0], t.Day());
    assert DowPartMatches(e.dayOfWeek.parts[0], t.Day()) <==> Weekday(t.Day()) == 3;
  }

  /** From Sunday the 1st of April 2012 the next Wednesday midnight is the 4th. */
  lemma FirstWednesdayOfApril(e: CronExpression)
    requires forall t :: ValidDateTime(t) ==>
      (e.Matches(t) <==> t.hour == 0 && t.minute == 0 && t.second == 0 && Weekday(t.Day()) == 3)
    ensures IsNext(e, AprilFirst, AprilFourth)
  {
    WeekdaysOf2012();
    InstantOrder(AprilFirst, AprilFourth);
    forall t | ValidDateTime(t) && Instant(AprilFirst) + 1 <= Instant(t) < Instant(AprilFourth)
      ensures !e.Matches(t)
    {
      InstantOrder(AprilFirst, t);
      InstantOrder(t, AprilFourth);
      assert t.Day() in {Date(2012, 4, 1), Date(2012, 4, 2), Date(2012, 4, 3)};
    }
  }

  /** The search for `0 0 0 * * 3` from Sunday the 1st of April 2012 stops on Wednesday the 4th. */
  method WednesdayAfterSunday() returns (r: Result<DateTime>)
    ensures r == Ok(AprilFourth)
  {
    var e := MidnightWednesday();
    forall t | ValidDateTime(t)
      ensures e.Matches(t) <==> t.hour == 0 && t.minute == 0 && t.second == 0 && Weekday(t.Day()) == 3
    {
      MidnightWednesdayMatches(t);
    }
    r := NextTimeAfter(e, AprilFirst);
    FirstWednesdayOfApril(e);
    InstantOrder(AprilFourth, PlusYears(AprilFirst, 4));
    if r.Ok? {
      NextIsUnique(e, AprilFirst, r.value, AprilFourth);
    }
  }

  // ----- lists and increments in the day fields -----

  lemma EveryFifteenthDay(x: int)
    ensures 1 <= x <= 31 && (x - 1) % 15 == 0 <==> x in {1, 16, 31}
  {
  }

  lemma EverySecondWeekdayFromThree(selected: bool, x: int)
    requires selected <==> 3 <= x <= 7 && (x - 3) % 2 == 0
    ensures selected <==> x in {3, 5, 7}
  {
  }

  /** `1/15` spelled by its numerals, so that the parser is not run on a literal. */
  lemma FifteenthDays(text: string, d: Date)
    requires text == ShowNat(1) + "/" + ShowNat(15) && ValidDate(d)
    ensures ParseDayOfMonth(text).Ok?
    ensures ParseDayOfMonth(text).value.Matches(d) <==> d.day in {1, 16, 31}
  {
    DomIncrementSelects(text, 1, 15, d);
    EveryFifteenthDay(d.day);
  }

  /** `1/15` in the day-of-month field selects the 1st, 16th and 31st. */
  lemma DayOfMonthIncrement(text: string, d: Date)
    requires text == "1/15" && ValidDate(d)
    ensures ParseDayOfMonth(text).Ok?
    ensures ParseDayOfMonth(text).value.Matches(d) <==> d.day in {1, 16, 31}
  {
    assert text == ShowNat(1) + "/" + ShowNat(15);
    FifteenthDays(text, d);
  }

  /** `7,19` in the day-of-month field selects the 7th and the 19th. */
  lemma DayOfMonthList(text: string, d: Date)
    requires text == "7,19" && ValidDate(d)
    ensures ParseDayOfMonth(text).Ok?
    ensures ParseDayOfMonth(text).value.Matches(d) <==> d.day in {7, 19}
  {
    assert ShowNat(7) == "7" && ShowNat(19) == "19";
    assert Numerals([7, 19]) == ["7", "19"];
    assert Join(["7", "19"], ',') == text;
    DomNumberListSelects([7, 19], d);
  }

  /** `3/2` spelled by its numerals. */
  lemma SecondWeekdaysFromThree(text: string, d: Date)
    requires text == ShowNat(3) + "/" + ShowNat(2) && ValidDate(d)
    ensures ParseDayOfWeek(text).Ok?
    ensures ParseDayOfWeek(text).value.Matches(d) <==> Weekday(d) in {3, 5, 7}
  {
    DowIncrementSelects(text, 3, 2, d);
    EverySecondWeekdayFromThree(ParseDayOfWeek(text).value.Matches(d), Weekday(d));
  }

  /** `3/2` in the day-of-week field selects Wednesday, Friday and Sunday. */
  lemma DayOfWeekIncrement(text: string, d: Date)
    requires text == "3/2" && ValidDate(d)
    ensures ParseDayOfWeek(text).Ok?
    ensures ParseDayOfWeek(text).value.Matches(d) <==> Weekday(d) in {3, 5, 7}
  {
    assert text == ShowNat(3) + "/" + ShowNat(2);
    SecondWeekdaysFromThree(text, d);
  }

  /** `1,5,7` in the day-of-week field selects Monday, Friday and Sunday. */
  lemma DayOfWeekList(text: string, d: Date)
    requires text == "1,5,7" && ValidDate(d)
    ensures ParseDayOfWeek(text).Ok?
    ensures ParseDayOfWeek(text).value.Matches(d) <==> Weekday(d) in {1, 5, 7}
  {
    assert ShowNat(1) == "1" && ShowNat(5) == "5" && ShowNat(7) == "7";
    assert Numerals([1, 5, 7]) == ["1", "5", "7"];
    assert Join(["1", "5", "7"], ',') == text;
    DowNumberListSelects([1, 5, 7], d);
  }

  /** The i-th listed weekday name is a writable name standing for weekday i + 1. */
  lemma ListedWeekday(i: int)
    requires 0 <= i < |Names(DayOfWeek)|
    ensures WritableAtom(Name(Names(DayOfWeek)[i]))
    ensures NameValue(DayOfWeek, Names(DayOfWeek)[i]) == Some(i + 1)
  {
    NamesUpper(DayOfWeek, i);
    NameValueIff(DayOfWeek, Names(DayOfWeek)[i], i);
  }

  /** The listed names of weekdays 1, 5 and 7 select those weekdays. */
  lemma ThreeNamedWeekdays(names: seq<string>, d: Date)
    requires names == [Names(DayOfWeek)[0], Names(DayOfWeek)[4], Names(DayOfWeek)[6]] && ValidDate(d)
    ensures ParseDayOfWeek(Join(names, ',')).Ok?
    ensures ParseDayOfWeek(Join(names, ',')).value.Matches(d) <==> Weekday(d) in {1, 5, 7}
  {
    ListedWeekday(0);
    ListedWeekday(4);
    ListedWeekday(6);
    NamesOfOneFiveSeven(names, d);
  }

  /** Three names of weekdays 1, 5 and 7 select those weekdays. */
  lemma NamesOfOneFiveSeven(names: seq<string>, d: Date)
    requires |names| == 3 && ValidDate(d)
    requires WritableAtom(Name(names[0])) && WritableAtom(Name(names[1])) && WritableAtom(Name(names[2]))
    requires NameValue(DayOfWeek, names[0]) == Some(1) && NameValue(DayOfWeek, names[1]) == Some(5)
    requires NameValue(DayOfWeek, names[2]) == Some(7)
    ensures ParseDayOfWeek(Join(names, ',')).Ok?
    ensures ParseDayOfWeek(Join(names, ',')).value.Matches(d) <==> Weekday(d) in {1, 5, 7}
  {
    assert forall i :: 0 <= i < |names| ==> WritableAtom(Name(names[i])) && NameValue(DayOfWeek, names[i]).Some? by {
      forall i | 0 <= i < |names|
        ensures WritableAtom(Name(names[i])) && NameValue(DayOfWeek, names[i]).Some?
      {
        assert i == 0 || i == 1 || i == 2;
      }
    }
    DowNameListSelects(names, d);
    var w := Weekday(d);
    if exists i :: 0 <= i < |names| && NameValue(DayOfWeek, names[i]) == Some(w) {
      var i :| 0 <= i < |names| && NameValue(DayOfWeek, names[i]) == Some(w);
      assert i == 0 || i == 1 || i == 2;
    }
    if w in {1, 5, 7} {
      var i := if w == 1 then 0 else if w == 5 then 1 else 2;
      assert NameValue(DayOfWeek, names[i]) == Some(w);
    }
  }

  /** `MON,FRI,SUN` selects the same weekdays as `1,5,7`. */
  lemma DayOfWeekNameList(text: string, d: Date)
    requires text == "MON,FRI,SUN" && ValidDate(d)
    ensures ParseDayOfWeek(text).Ok?
    ensures ParseDayOfWeek(text).value.Matches(d) <==> Weekday(d) in {1, 5, 7}
  {
    var names := ["MON", "FRI", "SUN"];
    assert Join(names, ',') == text;
    assert names == [Names(DayOfWeek)[0], Names(DayOfWeek)[4], Names(DayOfWeek)[6]];
    ThreeNamedWeekdays(names, d);
  }
}
