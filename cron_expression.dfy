/** A whole cron expression: six fields (second, minute, hour, day of month,
    month, day of week), how it is built from text and which wall-clock
    times it selects. */
module CronExpressions {
  import opened Results
  import opened Text
  import opened Calendar
  import opened FieldKinds
  import opened Fields
  import opened FieldFormat
  import opened FieldMeaning

  datatype CronExpression = CronExpression(
    second: SimpleField,
    minute: SimpleField,
    hour: SimpleField,
    dayOfMonth: DayOfMonthField,
    month: SimpleField,
    dayOfWeek: DayOfWeekField)
  {
    /** Every field is well formed and of its own kind. */
    predicate Valid() {
      second.kind == Second && second.Valid() &&
      minute.kind == Minute && minute.Valid() &&
      hour.kind == Hour && hour.Valid() &&
      ValidDayOfMonth(dayOfMonth) &&
      month.kind == Month && month.Valid() &&
      ValidDayOfWeek(dayOfWeek)
    }

    /** A time is selected when every field accepts its part of it; the two
        day fields are both required to hold (a `?` in either one always holds). */
    predicate Matches(t: DateTime)
      requires ValidDateTime(t)
    {
      second.Matches(t.second) && minute.Matches(t.minute) && hour.Matches(t.hour) &&
      dayOfMonth.Matches(t.Day()) && month.Matches(t.month) && dayOfWeek.Matches(t.Day())
    }
  }

  /** The six field texts, parsed left to right; the first bad field decides the error. */
  function ParseFields(fields: seq<string>): (r: Result<CronExpression>)
    requires |fields| == 6
    ensures r.Ok? ==> r.value.Valid()
    ensures r.Ok? <==>
      ParseSimple(Second, fields[0]).Ok? && ParseSimple(Minute, fields[1]).Ok? &&
      ParseSimple(Hour, fields[2]).Ok? && ParseDayOfMonth(fields[3]).Ok? &&
      ParseSimple(Month, fields[4]).Ok? && ParseDayOfWeek(fields[5]).Ok?
    ensures r.Ok? ==>
      r.value.second == ParseSimple(Second, fields[0]).value &&
      r.value.minute == ParseSimple(Minute, fields[1]).value &&
      r.value.hour == ParseSimple(Hour, fields[2]).value &&
      r.value.dayOfMonth == ParseDayOfMonth(fields[3]).value &&
      r.value.month == ParseSimple(Month, fields[4]).value &&
      r.value.dayOfWeek == ParseDayOfWeek(fields[5]).value
  {
    var second :- ParseSimple(Second, fields[0]);
    var minute :- ParseSimple(Minute, fields[1]);
    var hour :- ParseSimple(Hour, fields[2]);
    var dayOfMonth :- ParseDayOfMonth(fields[3]);
    var month :- ParseSimple(Month, fields[4]);
    var dayOfWeek :- ParseDayOfWeek(fields[5]);
    Ok(CronExpression(second, minute, hour, dayOfMonth, month, dayOfWeek))
  }

  /** The constructor CronExpression(text): an absent text and a text that does
      not have exactly six whitespace-separated fields are refused. */
  function Create(text: Option<string>): (r: Result<CronExpression>)
    ensures text.None? ==> r == Err(NullExpression)
    ensures text.Some? && |Words(text.value)| != 6 ==> r == Err(FieldCountMismatch(6, |Words(text.value)|))
    ensures r.Ok? ==> r.value.Valid()
  {
    match text
    case None => Err(NullExpression)
    case Some(s) =>
      var fields := Words(s);
      if |fields| != 6 then Err(FieldCountMismatch(6, |fields|)) else ParseFields(fields)
  }

  /** createWithoutSeconds(text): five fields, minute first; the second field is fixed to 0. */
  function CreateWithoutSeconds(text: Option<string>): (r: Result<CronExpression>)
    ensures text.None? ==> r == Err(NullExpression)
    ensures text.Some? && |Words(text.value)| != 5 ==> r == Err(FieldCountMismatch(5, |Words(text.value)|))
    ensures r.Ok? ==> r.value.Valid()
  {
    match text
    case None => Err(NullExpression)
    case Some(s) =>
      var fields := Words(s);
      if |fields| != 5 then Err(FieldCountMismatch(5, |fields|)) else ParseFields(["0"] + fields)
  }

  /** Leaving out the seconds is the same as writing a leading 0 for them. */
  lemma WithoutSecondsMeansLeadingZero(text: string)
    requires |Words(text)| == 5
    ensures CreateWithoutSeconds(Some(text)) == Create(Some("0 " + text))
  {
    assert "0 " + text == "0" + [' '] + text;
    WordsOfPrefix("0", ' ', text);
    CreateReadsWords("0 " + text);
    CreateWithoutSecondsReadsWords(text);
  }

  /** Six words are parsed as the six fields. */
  lemma CreateReadsWords(s: string)
    requires |Words(s)| == 6
    ensures Create(Some(s)) == ParseFields(Words(s))
  {
  }

  /** Five words are parsed after a "0" for the seconds. */
  lemma CreateWithoutSecondsReadsWords(s: string)
    requires |Words(s)| == 5
    ensures CreateWithoutSeconds(Some(s)) == ParseFields(["0"] + Words(s))
  {
  }

  /** An expression built without seconds fires at second 0 only. */
  lemma WithoutSecondsFiresAtSecondZero(text: string)
    requires CreateWithoutSeconds(Some(text)).Ok?
    ensures forall v :: CreateWithoutSeconds(Some(text)).value.second.Matches(v) <==> v == 0
  {
    var fields := ["0"] + Words(text);
    assert CreateWithoutSeconds(Some(text)) == ParseFields(fields);
    assert ShowNat(0) == "0";
    NumberSelectsItself(Second, 0);
  }

  // ----- printing, the inverse of Create -----

  function FormatFields(e: CronExpression): (fields: seq<string>)
    requires e.Valid()
  {
    [FormatSimple(e.second), FormatSimple(e.minute), FormatSimple(e.hour),
     FormatDayOfMonth(e.dayOfMonth), FormatSimple(e.month), FormatDayOfWeek(e.dayOfWeek)]
  }

  /** The canonical text of an expression: its fields separated by single spaces. */
  function Format(e: CronExpression): string
    requires e.Valid()
  {
    Join(FormatFields(e), ' ')
  }

  lemma WordsOfFormat(e: CronExpression)
    requires e.Valid()
    requires var fields := FormatFields(e);
      IsWord(fields[0]) && IsWord(fields[1]) && IsWord(fields[2]) &&
      IsWord(fields[3]) && IsWord(fields[4]) && IsWord(fields[5])
    ensures Words(Format(e)) == FormatFields(e)
  {
    var fields := FormatFields(e);
    forall i | 0 <= i < 6
      ensures IsWord(fields[i])
    {
      if i == 0 {} else if i == 1 {} else if i == 2 {} else if i == 3 {} else if i == 4 {}
    }
    WordsOfJoin(fields);
  }

  /** Every valid expression is the one its canonical text builds. */
  lemma CreateFormatRoundTrip(e: CronExpression)
    requires e.Valid()
    ensures Create(Some(Format(e))) == Ok(e)
  {
    var fields := FormatFields(e);
    assert IsWord(fields[0]) && ParseSimple(Second, fields[0]) == Ok(e.second) by { SimpleRoundTrip(e.second); }
    assert IsWord(fields[1]) && ParseSimple(Minute, fields[1]) == Ok(e.minute) by { SimpleRoundTrip(e.minute); }
    assert IsWord(fields[2]) && ParseSimple(Hour, fields[2]) == Ok(e.hour) by { SimpleRoundTrip(e.hour); }
    assert IsWord(fields[3]) && ParseDayOfMonth(fields[3]) == Ok(e.dayOfMonth) by { DayOfMonthRoundTrip(e.dayOfMonth); }
    assert IsWord(fields[4]) && ParseSimple(Month, fields[4]) == Ok(e.month) by { SimpleRoundTrip(e.month); }
    assert IsWord(fields[5]) && ParseDayOfWeek(fields[5]) == Ok(e.dayOfWeek) by { DayOfWeekRoundTrip(e.dayOfWeek); }
    WordsOfFormat(e);
    var r := ParseFields(fields);
    assert r.Ok? && r.value == e;
  }
}
