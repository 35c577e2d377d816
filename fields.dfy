/** The meaning of one cron field: what each piece of a field selects, the three
    field parsers (simple, day-of-month, day-of-week) and the match tests. */
module Fields {
  import opened Results
  import opened Text
  import opened Calendar
  import opened FieldKinds
  import opened FieldSyntax

  type Step = n: nat | n >= 1 witness 1

  /** The values lo, lo + step, lo + 2 * step, ... that do not exceed hi. */
  datatype Range = Range(lo: int, hi: int, step: Step) {
    predicate Contains(v: int) {
      lo <= v <= hi && (v - lo) % step == 0
    }
  }

  /** The range lies inside the legal values of the field. */
  predicate Within(kind: FieldKind, r: Range) {
    From(kind) <= r.lo <= r.hi <= To(kind)
  }

  /** A field that matches a number: the union of its ranges. */
  datatype SimpleField = SimpleField(kind: FieldKind, ranges: seq<Range>) {
    predicate Valid() {
      |ranges| >= 1 && forall i :: 0 <= i < |ranges| ==> Within(kind, ranges[i])
    }

    predicate Matches(v: int) {
      exists i :: 0 <= i < |ranges| && ranges[i].Contains(v)
    }
  }

  // ----- values -----

  /** The number an atom stands for; a weekday 0 is Sunday, that is 7. */
  function AtomValue(kind: FieldKind, a: Atom): (r: Result<int>)
    ensures a.Number? ==> r == Ok(if kind == DayOfWeek && a.value == 0 then 7 else a.value)
    ensures a.Name? ==> (r.Ok? <==> NameValue(kind, a.letters).Some?)
    ensures a.Name? && r.Ok? ==> r.value == NameValue(kind, a.letters).value
    ensures r.Err? ==> r.error == MalformedField
  {
    match a
    case Number(n) => Ok(if kind == DayOfWeek && n == 0 then 7 else n)
    case Name(s) =>
      match NameValue(kind, s)
      case Some(v) => Ok(v)
      case None => Err(MalformedField)
  }

  /** An atom's value, which must lie in the range of the field. */
  function FieldValue(kind: FieldKind, a: Atom): (r: Result<int>)
    ensures r.Ok? <==> AtomValue(kind, a).Ok? && From(kind) <= AtomValue(kind, a).value <= To(kind)
    ensures r.Ok? ==> r.value == AtomValue(kind, a).value
    ensures r.Err? && AtomValue(kind, a).Ok? ==> r.error == OutOfRange
  {
    var v :- AtomValue(kind, a);
    if From(kind) <= v <= To(kind) then Ok(v) else Err(OutOfRange)
  }

  /** An increment; zero selects nothing and is refused. */
  function MakeStep(n: nat): (r: Result<Step>)
    ensures r.Ok? <==> n >= 1
    ensures r.Ok? ==> r.value == n
    ensures r.Err? ==> r.error == MalformedField
  {
    if n == 0 then Err(MalformedField) else Ok(n)
  }

  /** N-M with both ends already in range; a range that runs backwards is refused. */
  function MakeRange(lo: int, hi: int, step: Step): (r: Result<Range>)
    ensures r.Ok? <==> lo <= hi
    ensures r.Ok? ==> r.value == Range(lo, hi, step)
    ensures r.Err? ==> r.error == ReversedRange
  {
    if lo <= hi then Ok(Range(lo, hi, step)) else Err(ReversedRange)
  }

  // ----- pieces of a simple field -----

  /** The range one piece of a number field selects. */
  function SimplePiece(kind: FieldKind, p: Piece): (r: Result<Range>)
    ensures r.Ok? ==> Within(kind, r.value)
    ensures p.Question? ==> r == Err(IgnoreMisuse)
    ensures (p.Last? || p.WithLast? || p.WithWeekday? || p.Nth?) ==> r == Err(InvalidModifier)
  {
    match p
    case Star => Ok(Range(From(kind), To(kind), 1))
    case StarStep(n) =>
      var step :- MakeStep(n);
      Ok(Range(From(kind), To(kind), step))
    case Single(a) =>
      var v :- FieldValue(kind, a);
      Ok(Range(v, v, 1))
    case Stepped(a, n) =>
      var v :- FieldValue(kind, a);
      var step :- MakeStep(n);
      Ok(Range(v, To(kind), step))
    case Between(a, b) =>
      var v :- FieldValue(kind, a);
      var w :- FieldValue(kind, b);
      MakeRange(v, w, 1)
    case BetweenStepped(a, b, n) =>
      var v :- FieldValue(kind, a);
      var w :- FieldValue(kind, b);
      var step :- MakeStep(n);
      MakeRange(v, w, step)
    case Question => Err(IgnoreMisuse)
    case _ => Err(InvalidModifier)
  }

  /** One comma-separated piece; a stray `?` is reported as such. */
  function CheckedPiece(s: string): Result<Piece> {
    match LexPiece(s)
    case Some(p) => Ok(p)
    case None => Err(if '?' in s then IgnoreMisuse else MalformedField)
  }

  /** The pieces of a field text, in order. */
  function FieldPieces(text: string): (r: Result<seq<Piece>>)
    ensures r.Ok? ==> |r.value| == |Split(text, ',')| >= 1
  {
    MapResult(Split(text, ','), CheckedPiece)
  }

  /** The ranges of all pieces, or the error of the first piece that has none. */
  function SimpleRanges(kind: FieldKind, pieces: seq<Piece>): (r: Result<seq<Range>>)
    ensures r.Ok? <==> forall i :: 0 <= i < |pieces| ==> SimplePiece(kind, pieces[i]).Ok?
    ensures r.Ok? ==> |r.value| == |pieces|
    ensures r.Ok? ==> forall i :: 0 <= i < |pieces| ==> r.value[i] == SimplePiece(kind, pieces[i]).value
  {
    MapResult(pieces, p => SimplePiece(kind, p))
  }

  /** The constructor SimpleField(kind, text): the field is the union of its pieces. */
  function ParseSimple(kind: FieldKind, text: string): (r: Result<SimpleField>)
    ensures r.Ok? ==> r.value.kind == kind && r.value.Valid()
  {
    var pieces :- FieldPieces(text);
    var ranges :- SimpleRanges(kind, pieces);
    Ok(SimpleField(kind, ranges))
  }

  // ----- day of month -----

  /** The weekday (Monday to Friday) nearest to day `n` of the month, never
      leaving the month: a Saturday moves back to Friday unless that is in the
      previous month, a Sunday moves on to Monday unless that is in the next. */
  function NearestWeekday(year: int, month: int, n: int): int
    requires ValidDate(Date(year, month, n))
  {
    var w := Weekday(Date(year, month, n));
    if w == 6 then (if n == 1 then n + 2 else n - 1)
    else if w == 7 then (if n == DaysInMonth(year, month) then n - 2 else n + 1)
    else n
  }

  datatype DomPart =
    | DomRange(range: Range)           // a piece of the simple grammar
    | DomLast(offset: nat)             // L (offset 0) or nL: n days before the last day
    | DomNearestWeekday(day: nat)      // nW

  predicate DomPartMatches(p: DomPart, d: Date)
    requires ValidDate(d)
  {
    match p
    case DomRange(r) => r.Contains(d.day)
    case DomLast(k) => d.day == DaysInMonth(d.year, d.month) - k
    case DomNearestWeekday(n) =>
      n <= DaysInMonth(d.year, d.month) && ValidDate(Date(d.year, d.month, n)) &&
      d.day == NearestWeekday(d.year, d.month, n)
  }

  datatype DayOfMonthField = DomIgnore | DomParts(parts: seq<DomPart>) {
    /** `?` constrains nothing; otherwise some piece must select the date. */
    predicate Matches(d: Date)
      requires ValidDate(d)
    {
      DomIgnore? || exists i :: 0 <= i < |parts| && DomPartMatches(parts[i], d)
    }
  }

  predicate ValidDomPart(p: DomPart) {
    match p
    case DomRange(r) => Within(DayOfMonth, r)
    case DomLast(k) => k <= 30
    case DomNearestWeekday(n) => 1 <= n <= 31
  }

  function DomPiece(p: Piece): (r: Result<DomPart>)
    ensures r.Ok? ==> ValidDomPart(r.value)
    ensures p.Nth? ==> r == Err(InvalidModifier)
  {
    match p
    case Last => Ok(DomLast(0))
    case WithLast(a) =>
      if a.Name? then Err(MalformedField)
      else if 1 <= a.value <= 30 then Ok(DomLast(a.value))
      else Err(OutOfRange)
    case WithWeekday(a) =>
      if a.Name? then Err(MalformedField)
      else if 1 <= a.value <= 31 then Ok(DomNearestWeekday(a.value))
      else Err(OutOfRange)
    case _ =>
      match SimplePiece(DayOfMonth, p)
      case Ok(r) => Ok(DomRange(r))
      case Err(e) => Err(e)
  }

  /** `?` on its own, or a list of day-of-month pieces. */
  function ParseDayOfMonth(text: string): (r: Result<DayOfMonthField>)
    ensures r.Ok? && r.value.DomParts? ==>
      |r.value.parts| >= 1 && forall i :: 0 <= i < |r.value.parts| ==> ValidDomPart(r.value.parts[i])
  {
    var pieces :- FieldPieces(text);
    if pieces == [Question] then Ok(DomIgnore)
    else
      var parts :- MapResult(pieces, DomPiece);
      Ok(DomParts(parts))
  }

  // ----- day of week -----

  datatype DowPart =
    | DowRange(range: Range)           // a piece of the simple grammar, over weekdays
    | DowLast(weekday: int)            // dL: the last such weekday of the month
    | DowNth(weekday: int, nth: nat)   // d#k: the k-th such weekday of the month

  predicate DowPartMatches(p: DowPart, d: Date)
    requires ValidDate(d)
  {
    match p
    case DowRange(r) => r.Contains(Weekday(d))
    case DowLast(w) => Weekday(d) == w && d.day + 7 > DaysInMonth(d.year, d.month)
    case DowNth(w, k) => Weekday(d) == w && (d.day - 1) / 7 + 1 == k
  }

  datatype DayOfWeekField = DowIgnore | DowParts(parts: seq<DowPart>) {
    predicate Matches(d: Date)
      requires ValidDate(d)
    {
      DowIgnore? || exists i :: 0 <= i < |parts| && DowPartMatches(parts[i], d)
    }
  }

  predicate ValidDowPart(p: DowPart) {
    match p
    case DowRange(r) => Within(DayOfWeek, r)
    case DowLast(w) => 1 <= w <= 7
    case DowNth(w, k) => 1 <= w <= 7 && 1 <= k <= 5
  }

  function DowPiece(p: Piece): (r: Result<DowPart>)
    ensures r.Ok? ==> ValidDowPart(r.value)
    ensures (p.Last? || p.WithWeekday?) ==> r == Err(InvalidModifier)
  {
    match p
    case WithLast(a) =>
      var w :- FieldValue(DayOfWeek, a);
      Ok(DowLast(w))
    case Nth(a, k) =>
      var w :- FieldValue(DayOfWeek, a);
      if 1 <= k <= 5 then Ok(DowNth(w, k)) else Err(OutOfRange)
    case _ =>
      match SimplePiece(DayOfWeek, p)
      case Ok(r) => Ok(DowRange(r))
      case Err(e) => Err(e)
  }

  /** `?` on its own, or a list of day-of-week pieces. */
  function ParseDayOfWeek(text: string): (r: Result<DayOfWeekField>)
    ensures r.Ok? && r.value.DowParts? ==>
      |r.value.parts| >= 1 && forall i :: 0 <= i < |r.value.parts| ==> ValidDowPart(r.value.parts[i])
  {
    var pieces :- FieldPieces(text);
    if pieces == [Question] then Ok(DowIgnore)
    else
      var parts :- MapResult(pieces, DowPiece);
      Ok(DowParts(parts))
  }
}
