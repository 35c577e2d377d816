# fc.cron: a verified model of a six-field cron expression engine

The `fc.cron` engine turns a cron expression into a schedule. The expression has six
whitespace-separated fields: second, minute, hour, day of month, month and day of week.
`nextTimeAfter` then returns the first wall-clock second strictly after a reference time
that every field accepts. This project models that engine in Dafny and proves what it
promises:

- **Field kinds** (`field_kinds.dfy`). Each kind has a value range: seconds and minutes
  0–59, hours 0–23, day of month 1–31, month 1–12, day of week 1–7 with Monday = 1.
  Months and weekdays also accept three-letter names in any letter case.
- **Field grammar** (`field_syntax.dfy`, `fields.dfy`). A field is a comma list of
  pieces. Every field accepts `N`, `N-M`, `N/S`, `N-M/S`, `*` and `*/S`. Day of month
  also accepts `?`, `L`, `nL` and `nW`. Day of week also accepts `?`, `dL` and `d#k`,
  and reads both 0 and 7 as Sunday. Each parser gives a field or the error that refuses
  the text. A printer (`field_format.dfy`) is the parsers' inverse.
- **Field meaning** (`field_meaning.dfy`, `day_rules.dfy`). What each form selects, and
  which forms each field refuses. The calendar forms `L`, `nW`, `dL` and `d#k` are proved
  against definitions in words: the last day, the nearest weekday, the last such
  weekday, the k-th such weekday.
- **Calendar** (`calendar.dfy`). Proleptic Gregorian dates, leap years, days in a month,
  weekdays, and seconds counted from 0001-01-01T00:00:00 on the wall clock.
- **Expressions** (`cron_expression.dfy`). The constructor `CronExpression(text)`,
  `createWithoutSeconds(text)` and the matching of a whole time.
- **nextTimeAfter** (`next_time.dfy`). A cursor search bounded by a barrier. The
  barrier is 4 years ahead by default, or an explicit time, or a duration in
  milliseconds. The search is an imperative loop. Its postcondition says the result is
  the earliest selected time after the reference, and that a failure means no selected
  time lies before the barrier.
- **Worked instances** (`examples.dfy`). The leap-day, 30 February, `10/100` and weekday-3
  schedules exercised by the repository's tests, and the lists and increments of the two
  day fields.

The implementation file `src/main/java/fc/cron/CronExpression.java` is not part of this
model. The behaviour modelled here is the behaviour its test file
`src/test/java/fc/cron/CronExpressionTest.java` asserts, together with the field grammar
documented for the engine. Every source cell below cites that test file.

## Model

| member | source | states |
|---|---|---|
| FieldKinds.NameValue | src/test/java/fc/cron/CronExpressionTest.java:391-395 | a name has a value exactly when, upper-cased, it is one of the field's names; that value lies in the field's range and is the name's position plus one |
| FieldKinds.NameValueIff | src/test/java/fc/cron/CronExpressionTest.java:391-395 | a name stands for value i + 1 exactly when, upper-cased, it is the i-th listed name (JAN..DEC as 1..12, MON..SUN as 1..7) |
| FieldKinds.NameValueIgnoresCase | src/test/java/fc/cron/CronExpressionTest.java:426-430 | upper-casing a name never changes what it stands for |
| Fields.SimplePiece | src/test/java/fc/cron/CronExpressionTest.java:135-151 | in a plain field `?` is IgnoreMisuse, and `L`, `nL`, `nW` and `d#k` are InvalidModifier; an accepted piece lies in the field's range |
| Fields.SimpleRanges | src/test/java/fc/cron/CronExpressionTest.java:201-206 | a list is accepted exactly when every piece is, and gives one range per piece, in order |
| Fields.ParseSimple | src/test/java/fc/cron/CronExpressionTest.java:76-85 | an accepted field is of the requested kind and every range lies in the kind's range |
| Fields.ParseDayOfMonth | src/test/java/fc/cron/CronExpressionTest.java:332-357 | an accepted day-of-month field is `?` or a non-empty list of valid parts |
| Fields.ParseDayOfWeek | src/test/java/fc/cron/CronExpressionTest.java:402-472 | an accepted day-of-week field is `?` or a non-empty list of valid parts |
| FieldSyntax.LexShowPiece | src/test/java/fc/cron/CronExpressionTest.java:70-116 | lexing a printed piece gives that piece back |
| FieldMeaning.NumberSelectsItself | src/test/java/fc/cron/CronExpressionTest.java:70-74 | `N` in range selects exactly N |
| FieldMeaning.IncrementSelectsFromStart | src/test/java/fc/cron/CronExpressionTest.java:88-92 | `N/S` selects N, N+S, ... up to the end of the field only (`0/15` is 0, 15, 30, 45; month `5/10` is May alone) |
| FieldMeaning.RangeSelectsInterval | src/test/java/fc/cron/CronExpressionTest.java:94-98 | `N-M` selects exactly N..M |
| FieldMeaning.SteppedRangeSelects | src/test/java/fc/cron/CronExpressionTest.java:100-104 | `N-M/S` selects exactly the values N + jS up to M |
| FieldMeaning.StarSelectsAll | src/test/java/fc/cron/CronExpressionTest.java:106-110 | `*` selects the whole range of the field |
| FieldMeaning.StarIncrementSelects | src/test/java/fc/cron/CronExpressionTest.java:112-116 | `*/S` selects every S-th value from the start of the field (`*/2` on weekdays is 1, 3, 5, 7) |
| FieldMeaning.ListIsUnion | src/test/java/fc/cron/CronExpressionTest.java:201-206 | a comma list selects a value exactly when one of its members does |
| FieldMeaning.OutOfRangeNumberRefused | src/test/java/fc/cron/CronExpressionTest.java:217-220 | a number outside the field's range (other than weekday 0) is refused with OutOfRange |
| FieldMeaning.RangeEndOutOfRangeRefused | src/test/java/fc/cron/CronExpressionTest.java:217-220 | `N-M` with M past the end of the field (`42-63`) is refused with OutOfRange |
| FieldMeaning.NthRefusedInSimpleField | src/test/java/fc/cron/CronExpressionTest.java:222-225 | `N#k` in a plain field (`42#3`) is refused with InvalidModifier |
| FieldMeaning.ReversedRangeRefused | src/test/java/fc/cron/CronExpressionTest.java:474-477 | `N-M` with M < N (`5-1`) is refused with ReversedRange |
| FieldMeaning.QuestionRefusedInSimpleField | src/test/java/fc/cron/CronExpressionTest.java:135-151 | `?` in a second, minute, hour or month field is refused with IgnoreMisuse |
| FieldMeaning.QuestionAcceptedInDayFields | src/test/java/fc/cron/CronExpressionTest.java:118-128 | `?` is accepted in both day fields and matches every date |
| FieldMeaning.QuestionInListRefused | src/test/java/fc/cron/CronExpressionTest.java:118-128 | `?` inside a longer list is refused in both day fields |
| FieldMeaning.LastDayOfMonthSelected | src/test/java/fc/cron/CronExpressionTest.java:153-163 | `L` matches a date exactly when it is the last day of its month, 29 February in a leap year included |
| FieldMeaning.DaysBeforeLastSelected | src/test/java/fc/cron/CronExpressionTest.java:338-342 | `nL` matches exactly the day n days before the last day of the month (`3L` is 27 April, 26 February 2012) |
| FieldMeaning.NearestWeekdaySelected | src/test/java/fc/cron/CronExpressionTest.java:344-357 | `nW` matches exactly the nearest weekday to day n of the same month, when the month has a day n |
| FieldMeaning.NthRefusedInDayOfMonth | src/test/java/fc/cron/CronExpressionTest.java:364-367 | `9#2` in the day-of-month field is refused with InvalidModifier |
| FieldMeaning.UnknownSuffixRefused | src/test/java/fc/cron/CronExpressionTest.java:359-362 | a number followed by a letter other than L or W (`9X`) is refused in both day fields |
| FieldMeaning.LastWeekdaySelected | src/test/java/fc/cron/CronExpressionTest.java:432-438 | `dL` matches a date exactly when it is a d and no later d is left in its month |
| FieldMeaning.NthWeekdaySelected | src/test/java/fc/cron/CronExpressionTest.java:464-472 | `d#k` matches a date exactly when it is a d and it is the k-th d of its month (`3#5` is 29 February 2012) |
| FieldMeaning.NthOutOfRangeRefused | src/test/java/fc/cron/CronExpressionTest.java:464-472 | `d#k` with k outside 1..5 is refused with OutOfRange |
| FieldMeaning.NearestWeekdayRefusedInDayOfWeek | src/test/java/fc/cron/CronExpressionTest.java:440-443 | `5W` in the day-of-week field is refused with InvalidModifier |
| FieldSyntax.QuestionOnlyAlone | src/test/java/fc/cron/CronExpressionTest.java:445-448 | a piece that lexes and holds `?` is `?` alone |
| FieldMeaning.QuestionInPieceRefused | src/test/java/fc/cron/CronExpressionTest.java:445-448 | a comma-free text that holds `?` beside anything else is refused with IgnoreMisuse in every field |
| FieldMeaning.QuestionAfterNumberRefused | src/test/java/fc/cron/CronExpressionTest.java:445-448 | `5?3` is refused with IgnoreMisuse in both day fields |
| FieldMeaning.NameSelectsItsValue | src/test/java/fc/cron/CronExpressionTest.java:390-395 | a month or weekday name selects exactly its value |
| FieldMeaning.WeekdayNameForms | src/test/java/fc/cron/CronExpressionTest.java:432-438 | a weekday name works wherever a weekday number does: alone, before `L` (`FRIL`) and before `#k` (`WED#5`) |
| FieldMeaning.ZeroIsSunday | src/test/java/fc/cron/CronExpressionTest.java:450-455 | `0` and `7` give the same day-of-week field, Sunday |
| FieldMeaning.ZeroIsSundayInLast | src/test/java/fc/cron/CronExpressionTest.java:450-462 | `0L` and `7L` both mean the last Sunday |
| FieldMeaning.ZeroIsSundayInNth | src/test/java/fc/cron/CronExpressionTest.java:450-462 | `0#k` and `7#k` both mean the k-th Sunday |
| FieldMeaning.DomReadsSimple | src/test/java/fc/cron/CronExpressionTest.java:309-314 | a day-of-month text of the plain grammar (`3`, `1/15`, `7,19`) matches a date exactly when its plain reading selects the date's day of the month |
| FieldMeaning.DowReadsSimple | src/test/java/fc/cron/CronExpressionTest.java:410-423 | a day-of-week text of the plain grammar (`3/2`, `1,5,7`) matches a date exactly when its plain reading selects the date's weekday |
| FieldMeaning.DomListIsUnion | src/test/java/fc/cron/CronExpressionTest.java:324-329 | a comma list of day-of-month pieces matches a date exactly when one of the pieces, read alone, matches it |
| FieldMeaning.DowListIsUnion | src/test/java/fc/cron/CronExpressionTest.java:417-429 | a comma list of day-of-week pieces matches a date exactly when one of the pieces, read alone, matches it |
| FieldMeaning.DomIncrementSelects | src/test/java/fc/cron/CronExpressionTest.java:316-322 | `N/S` in the day-of-month field matches exactly the days N, N + S, ... up to 31 |
| FieldMeaning.DowIncrementSelects | src/test/java/fc/cron/CronExpressionTest.java:410-416 | `N/S` in the day-of-week field matches exactly the weekdays N, N + S, ... up to 7 |
| FieldMeaning.DomNumberListSelects | src/test/java/fc/cron/CronExpressionTest.java:324-329 | a list of day numbers matches a date exactly when its day of the month is one of them |
| FieldMeaning.DowNumberListSelects | src/test/java/fc/cron/CronExpressionTest.java:417-422 | a list of weekday numbers matches a date exactly when its weekday is one of them |
| FieldMeaning.DowNameSelects | src/test/java/fc/cron/CronExpressionTest.java:424-429 | a weekday name alone matches a date exactly when it names the date's weekday |
| FieldMeaning.DowNameListSelects | src/test/java/fc/cron/CronExpressionTest.java:424-429 | a list of weekday names matches a date exactly when one of them names the date's weekday |
| DayRules.LastDayStartsNewMonth | src/test/java/fc/cron/CronExpressionTest.java:332-336 | `L` holds on a date exactly when the next date is the first of another month |
| DayRules.NearestWeekdayIsNearest | src/test/java/fc/cron/CronExpressionTest.java:344-357 | the day `nW` picks is a weekday of the same month; it is n itself when n is a weekday, and every other weekday of the month is farther from n |
| DayRules.LastWeekdayIsLast | src/test/java/fc/cron/CronExpressionTest.java:432-438 | `dL` holds on a date exactly when it is a d and no later day of its month is a d |
| DayRules.NthWeekdayIsNth | src/test/java/fc/cron/CronExpressionTest.java:464-472 | `d#k` holds on a date exactly when it is a d and exactly k days of the month up to it are d's |
| DayRules.SameWeekdayIff | src/test/java/fc/cron/CronExpressionTest.java:402-408 | two days of a month share a weekday exactly when they are whole weeks apart |
| Calendar.DaysInMonth | src/test/java/fc/cron/CronExpressionTest.java:153-157 | months have 28 to 31 days; February has 29 exactly in leap years |
| Calendar.YearLengthsAccumulate | src/test/java/fc/cron/CronExpressionTest.java:485-489 | the closed-form day count before a year grows by that year's length |
| Calendar.DayNumberOrder | src/test/java/fc/cron/CronExpressionTest.java:177-184 | day numbers order dates as the calendar does |
| Calendar.InstantOrder | src/test/java/fc/cron/CronExpressionTest.java:165-170 | instants order date-times as the wall clock does |
| Calendar.InstantInjective | src/test/java/fc/cron/CronExpressionTest.java:165-170 | two valid date-times have the same instant exactly when they are equal |
| Calendar.WeekdayShift | src/test/java/fc/cron/CronExpressionTest.java:402-408 | k days later in a month is k weekdays later, modulo 7 |
| Calendar.StartOfNextMonth | src/test/java/fc/cron/CronExpressionTest.java:177-184 | the first second of the next month, right after the last day of this one (30 April 23:59:03 carries into 1 May) |
| Calendar.PlusYears | src/test/java/fc/cron/CronExpressionTest.java:485-489 | the same wall-clock time some years later, with 29 February clamped to 28 February |
| Calendar.SameDateUntilNextDay | src/test/java/fc/cron/CronExpressionTest.java:177-184 | every time before the start of the next day lies on the same date |
| CronExpressions.ParseFields | src/test/java/fc/cron/CronExpressionTest.java:165-170 | six field texts give an expression exactly when each field parses as its kind, and then each field is that parse |
| CronExpressions.Create | src/test/java/fc/cron/CronExpressionTest.java:130-133 | an absent text is NullExpression, a text without exactly six fields (`* 3 *`) is FieldCountMismatch, and any accepted expression is valid |
| CronExpressions.CreateWithoutSeconds | src/test/java/fc/cron/CronExpressionTest.java:503-506 | an absent text is NullExpression, a text without exactly five fields is FieldCountMismatch, and any accepted expression is valid |
| CronExpressions.WithoutSecondsMeansLeadingZero | src/test/java/fc/cron/CronExpressionTest.java:508-511 | a five-field text means the same as a six-field text with a leading `0` |
| CronExpressions.WithoutSecondsFiresAtSecondZero | src/test/java/fc/cron/CronExpressionTest.java:508-511 | an expression built without seconds selects second 0 only |
| CronExpressions.CreateFormatRoundTrip | src/test/java/fc/cron/CronExpressionTest.java:130-133 | every valid expression is the one its printed text constructs |
| NextTime.SearchUntil | src/test/java/fc/cron/CronExpressionTest.java:165-200 | a result is the earliest selected time strictly after the reference and not past the limit; a failure is NoSatisfyingTime and means nothing is selected from one second after the reference up to the limit |
| NextTime.NextTimeAfter | src/test/java/fc/cron/CronExpressionTest.java:485-489 | the same with the limit four calendar years after the reference |
| NextTime.NextTimeAfterUntil | src/test/java/fc/cron/CronExpressionTest.java:491-495 | the same with an explicit barrier time |
| NextTime.NextTimeAfterWithin | src/test/java/fc/cron/CronExpressionTest.java:497-501 | the same with the barrier a number of milliseconds after the reference |
| NextTime.NextIsUnique | src/test/java/fc/cron/CronExpressionTest.java:165-170 | there is at most one next time |
| NextTime.NextIsMonotone | src/test/java/fc/cron/CronExpressionTest.java:177-184 | a later reference never gives an earlier next time, and gives the same one while it is still before it |
| NextTime.NextOfNext | src/test/java/fc/cron/CronExpressionTest.java:186-192 | asking again from a result gives the following selected time, with nothing selected in between |
| Examples.LeapDayExpression | src/test/java/fc/cron/CronExpressionTest.java:503-506 | `* * * 29 2 *` builds the 29-February schedule, and `createWithoutSeconds` refuses it with five fields expected and six found |
| Examples.LeapDayWithoutSeconds | src/test/java/fc/cron/CronExpressionTest.java:508-511 | `* * 29 2 *` without seconds builds the 29-February schedule at second 0 |
| Examples.LeapDaySelection | src/test/java/fc/cron/CronExpressionTest.java:485-489 | that schedule selects 29 February 2016 at midnight and nothing but 29 February |
| Examples.FirstLeapDay | src/test/java/fc/cron/CronExpressionTest.java:485-489 | from 1 March 2012 the next selected time is 29 February 2016 |
| Examples.LeapDayAgainstBarriers | src/test/java/fc/cron/CronExpressionTest.java:485-501 | 29 February 2016 is inside the four-year barrier and beyond both the one-year and the two-year barriers |
| Examples.DefaultBarrierFindsLeapDay | src/test/java/fc/cron/CronExpressionTest.java:485-489 | the default search from 1 March 2012 gives 29 February 2016 |
| Examples.OneYearBarrierFails | src/test/java/fc/cron/CronExpressionTest.java:491-495 | with 1 March 2013 as barrier the search fails with NoSatisfyingTime |
| Examples.TwoYearDurationFails | src/test/java/fc/cron/CronExpressionTest.java:497-501 | with a barrier of 2 × 356 days in milliseconds the search fails with NoSatisfyingTime |
| Examples.FebruaryThirtiethExpression | src/test/java/fc/cron/CronExpressionTest.java:479-483 | `* * * 30 2 *` is accepted as an expression |
| Examples.FebruaryThirtiethNeverMatches | src/test/java/fc/cron/CronExpressionTest.java:479-483 | the 30-February schedule selects no valid time |
| Examples.NonExistingDateFails | src/test/java/fc/cron/CronExpressionTest.java:479-483 | the search for 30 February fails with NoSatisfyingTime from every reference |
| Examples.LargeSecondIncrement | src/test/java/fc/cron/CronExpressionTest.java:194-198 | `10/100 * * * * *` builds the schedule whose second field holds 10 only |
| Examples.TenthSecondMatches | src/test/java/fc/cron/CronExpressionTest.java:194-198 | that schedule selects a time exactly when its second is 10 |
| Examples.NextTenPast | src/test/java/fc/cron/CronExpressionTest.java:194-196 | from 13:00:50 the next time with second 10 is 13:01:10 |
| Examples.LargeIncrementWaitsForNextMinute | src/test/java/fc/cron/CronExpressionTest.java:194-196 | the search for `10/100` from 13:00:50 gives 13:01:10: the increment does not spill over into the minute |
| Examples.WeekdaysOf2012 | src/test/java/fc/cron/CronExpressionTest.java:402-408 | the calendar puts 1 April 2012 on a Sunday, 4 April 2012 and 29 February 2012 on a Wednesday |
| Examples.WednesdayExpression | src/test/java/fc/cron/CronExpressionTest.java:404 | `0 0 0 * * 3` builds the schedule of midnight on weekday 3 |
| Examples.MidnightWednesdayMatches | src/test/java/fc/cron/CronExpressionTest.java:404 | that schedule selects a time exactly when it is midnight on a Wednesday |
| Examples.FirstWednesdayOfApril | src/test/java/fc/cron/CronExpressionTest.java:404 | from 1 April 2012 the next Wednesday midnight is 4 April 2012 |
| Examples.WednesdayAfterSunday | src/test/java/fc/cron/CronExpressionTest.java:404 | the search for `0 0 0 * * 3` from 1 April 2012 gives 4 April 2012 |
| Examples.DayOfMonthIncrement | src/test/java/fc/cron/CronExpressionTest.java:316-322 | `1/15` in the day-of-month field matches exactly the 1st, 16th and 31st, so after 16 April the next day is 1 May |
| Examples.DayOfMonthList | src/test/java/fc/cron/CronExpressionTest.java:324-329 | `7,19` in the day-of-month field matches exactly the 7th and 19th |
| Examples.DayOfWeekIncrement | src/test/java/fc/cron/CronExpressionTest.java:410-416 | `3/2` in the day-of-week field matches exactly Wednesday, Friday and Sunday |
| Examples.DayOfWeekList | src/test/java/fc/cron/CronExpressionTest.java:417-422 | `1,5,7` in the day-of-week field matches exactly Monday, Friday and Sunday |
| Examples.DayOfWeekNameList | src/test/java/fc/cron/CronExpressionTest.java:424-429 | `MON,FRI,SUN` matches exactly Monday, Friday and Sunday, as `1,5,7` does |

## Left out

- Time zones and daylight-saving changes are not modelled. The clock is a local wall clock with no zone, so the Europe/Oslo tests at `CronExpressionTest.java:270-306`, and the set-up at 59-68 that installs that zone, are outside the model.
- NextTime.NextTimeAfter: the reference time is always a present `DateTime` parameter, so the `IllegalArgumentException` the original raises for a missing reference is not modelled; `NextTime.NextTimeAfterUntil` and `NextTime.NextTimeAfterWithin` take their reference and barrier the same way.
- `DateTime.now()` (line 482) is the reference parameter `after` of `Examples.NonExistingDateFails`. That parameter ranges over every reference time.
- Sub-second precision is not modelled. A time has whole seconds only, and a duration barrier is floored to whole seconds. That floor is exact, because only whole seconds can be selected.
- Joda-Time is replaced by the project's own proleptic Gregorian calendar.
- CronExpressions.CronExpression.Matches: the two day fields combine by AND; a `?` in either one always holds. The common cron convention of OR when both day fields are constrained is not modelled. No test constrains both day fields at once.
- NextTime.SearchUntil: the barrier is checked on every step of the cursor, not only when the year advances. Every result therefore lies within the barrier, and the loop's measure is the distance from the cursor to the barrier.
- The search jumps to the next month, day, hour, minute or second, whichever is the coarsest field that rejects the cursor. How the original implementation steps inside a field is not visible.
- Where the tests say nothing, the model makes these choices:
  - a step of 0 is refused;
  - `?` must be the only piece of its field;
  - `nL` takes n in 1..30;
  - `nW` takes n in 1..31 and matches nothing in a month without a day n;
  - `d#k` takes k in 1..5;
  - a bare `L` is refused in the day-of-week field;
  - numerals have one or two digits;
  - names have three letters;
  - weekday 0 becomes 7 before ranges are checked, so `0-3` is a reversed range.
- FieldMeaning.OutOfRangeNumberRefused: it and the other refusal lemmas cover numerals of one or two digits (`n < 100`), the only numerals the grammar reads.
- The progress-bar, application-start annotation and injection-scope files of the repository are outside the cron engine and are not modelled.
