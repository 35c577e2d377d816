/** What each written form of a field selects, how lists combine, where `?`
    is accepted, and which forms the field parsers refuse. */
module FieldMeaning {
  import opened Results
  import opened Text
  import opened Calendar
  import opened FieldKinds
  import opened FieldSyntax
  import opened Fields
  import opened DayRules

  // ----- a field made of one piece -----

  /** A piece without commas is lexed on its own. */
  lemma PiecesOfOnePiece(p: Piece)
    requires Writable(p)
    ensures FieldPieces(ShowPiece(p)) == Ok([p])
  {
    ShowPieceHasNoComma(p);
    SplitPiece(ShowPiece(p), ',');
    LexShowPiece(p);
    assert CheckedPiece(ShowPiece(p)) == Ok(p);
    var r := MapResult([ShowPiece(p)], CheckedPiece);
    assert r.Ok? && |r.value| == 1 && r.value[0] == p;
    assert r.value == [p];
  }

  lemma SimpleOfOnePiece(kind: FieldKind, p: Piece)
    requires Writable(p)
    ensures var r := ParseSimple(kind, ShowPiece(p));
      (r.Ok? <==> SimplePiece(kind, p).Ok?) &&
      (r.Ok? ==> r.value == SimpleField(kind, [SimplePiece(kind, p).value])) &&
      (r.Err? ==> r.error == SimplePiece(kind, p).error)
  {
    PiecesOfOnePiece(p);
  }

  /** A single piece that has no range makes the field fail the same way. */
  lemma OnePieceError(kind: FieldKind, p: Piece, text: string)
    requires Writable(p) && SimplePiece(kind, p).Err? && text == ShowPiece(p)
    ensures ParseSimple(kind, text) == Err(SimplePiece(kind, p).error)
  {
    SimpleOfOnePiece(kind, p);
  }

  /** A single piece that denotes range `r` makes a field that matches `r`'s values. */
  lemma OneRangeMeaning(kind: FieldKind, p: Piece, r: Range, text: string)
    requires Writable(p) && SimplePiece(kind, p) == Ok(r) && text == ShowPiece(p)
    ensures ParseSimple(kind, text) == Ok(SimpleField(kind, [r]))
    ensures forall v :: ParseSimple(kind, text).value.Matches(v) <==> r.Contains(v)
  {
    SimpleOfOnePiece(kind, p);
  }

  /** Restates "matches exactly the values of a range" without the range. */
  lemma RangeUnfolded(f: SimpleField, lo: int, hi: int, step: Step)
    requires forall v :: f.Matches(v) <==> Range(lo, hi, step).Contains(v)
    ensures forall v :: f.Matches(v) <==> lo <= v <= hi && (v - lo) % step == 0
  {
  }

  /** `N`: the number itself. */
  lemma NumberSelectsItself(kind: FieldKind, n: nat)
    requires From(kind) <= n <= To(kind)
    ensures ParseSimple(kind, ShowNat(n)).Ok?
    ensures forall v :: ParseSimple(kind, ShowNat(n)).value.Matches(v) <==> v == n
  {
    var p := Single(Number(n));
    assert SimplePiece(kind, p) == Ok(Range(n, n, 1));
    OneRangeMeaning(kind, p, Range(n, n, 1), ShowNat(n));
  }

  /** `N/S`: N and every S-th value after it up to the top of the field. */
  lemma IncrementSelectsFromStart(kind: FieldKind, n: nat, s: nat)
    requires From(kind) <= n <= To(kind) && s >= 1
    ensures ParseSimple(kind, ShowNat(n) + "/" + ShowNat(s)).Ok?
    ensures forall v :: ParseSimple(kind, ShowNat(n) + "/" + ShowNat(s)).value.Matches(v) <==>
      n <= v <= To(kind) && (v - n) % s == 0
  {
    var p := Stepped(Number(n), s);
    var text := ShowNat(n) + "/" + ShowNat(s);
    assert text == ShowPiece(p);
    assert SimplePiece(kind, p) == Ok(Range(n, To(kind), s)) by {
      assert FieldValue(kind, Number(n)) == Ok(n);
    }
    OneRangeMeaning(kind, p, Range(n, To(kind), s), text);
    RangeUnfolded(ParseSimple(kind, text).value, n, To(kind), s);
  }

  lemma ShowOfNumbers(n: nat, m: nat, s: nat)
    ensures ShowPiece(Between(Number(n), Number(m))) == ShowNat(n) + "-" + ShowNat(m)
    ensures ShowPiece(BetweenStepped(Number(n), Number(m), s)) == ShowNat(n) + "-" + ShowNat(m) + "/" + ShowNat(s)
  {
  }

  lemma RangeOfNumbers(kind: FieldKind, n: nat, m: nat, s: nat)
    requires From(kind) <= n <= m <= To(kind) && s >= 1
    ensures Writable(Between(Number(n), Number(m))) && Writable(BetweenStepped(Number(n), Number(m), s))
    ensures SimplePiece(kind, Between(Number(n), Number(m))) == Ok(Range(n, m, 1))
    ensures SimplePiece(kind, BetweenStepped(Number(n), Number(m), s)) == Ok(Range(n, m, s))
  {
    assert FieldValue(kind, Number(n)) == Ok(n);
    assert FieldValue(kind, Number(m)) == Ok(m);
  }

  /** `N-M`: every value from N to M. */
  lemma RangeSelectsInterval(kind: FieldKind, n: nat, m: nat)
    requires From(kind) <= n <= m <= To(kind)
    ensures ParseSimple(kind, ShowNat(n) + "-" + ShowNat(m)).Ok?
    ensures forall v :: ParseSimple(kind, ShowNat(n) + "-" + ShowNat(m)).value.Matches(v) <==> n <= v <= m
  {
    var p := Between(Number(n), Number(m));
    var text := ShowNat(n) + "-" + ShowNat(m);
    ShowOfNumbers(n, m, 1);
    RangeOfNumbers(kind, n, m, 1);
    OneRangeMeaning(kind, p, Range(n, m, 1), text);
  }

  /** `N-M/S`: every S-th value from N, up to M. */
  lemma SteppedRangeSelects(kind: FieldKind, n: nat, m: nat, s: nat)
    requires From(kind) <= n <= m <= To(kind) && s >= 1
    ensures ParseSimple(kind, ShowNat(n) + "-" + ShowNat(m) + "/" + ShowNat(s)).Ok?
    ensures forall v :: ParseSimple(kind, ShowNat(n) + "-" + ShowNat(m) + "/" + ShowNat(s)).value.Matches(v) <==>
      n <= v <= m && (v - n) % s == 0
  {
    var p := BetweenStepped(Number(n), Number(m), s);
    var text := ShowNat(n) + "-" + ShowNat(m) + "/" + ShowNat(s);
    ShowOfNumbers(n, m, s);
    RangeOfNumbers(kind, n, m, s);
    OneRangeMeaning(kind, p, Range(n, m, s), text);
    RangeUnfolded(ParseSimple(kind, text).value, n, m, s);
  }

  /** `*`: every value of the field. */
  lemma StarSelectsAll(kind: FieldKind)
    ensures ParseSimple(kind, "*").Ok?
    ensures forall v :: ParseSimple(kind, "*").value.Matches(v) <==> From(kind) <= v <= To(kind)
  {
    SimpleOfOnePiece(kind, Star);
    assert ShowPiece(Star) == "*";
  }

  // A star with increment S: every S-th value from the bottom of the field.
  lemma StarIncrementSelects(kind: FieldKind, s: nat)
    requires s >= 1
    ensures ParseSimple(kind, "*/" + ShowNat(s)).Ok?
    ensures forall v :: ParseSimple(kind, "*/" + ShowNat(s)).value.Matches(v) <==>
      From(kind) <= v <= To(kind) && (v - From(kind)) % s == 0
  {
    var p := StarStep(s);
    var text := "*/" + ShowNat(s);
    assert SimplePiece(kind, p) == Ok(Range(From(kind), To(kind), s));
    OneRangeMeaning(kind, p, Range(From(kind), To(kind), s), text);
    RangeUnfolded(ParseSimple(kind, text).value, From(kind), To(kind), s);
  }

  /** A weekday number outside 0..7 or a value outside the field is refused. */
  lemma OutOfRangeNumberRefused(kind: FieldKind, n: nat)
    requires n < 100
    requires !(From(kind) <= n <= To(kind)) && !(kind == DayOfWeek && n == 0)
    ensures ParseSimple(kind, ShowNat(n)) == Err(OutOfRange)
  {
    SimpleOfOnePiece(kind, Single(Number(n)));
  }

  /** `N-M` with M < N: ranges do not wrap around. */
  lemma ReversedRangeRefused(kind: FieldKind, n: nat, m: nat)
    requires From(kind) <= m < n <= To(kind)
    ensures ParseSimple(kind, ShowNat(n) + "-" + ShowNat(m)) == Err(ReversedRange)
  {
    var p := Between(Number(n), Number(m));
    assert SimplePiece(kind, p) == Err(ReversedRange);
    OnePieceError(kind, p, ShowNat(n) + "-" + ShowNat(m));
  }

  /** `N-M` with M above the field: refused as out of range. */
  lemma RangeEndOutOfRangeRefused(kind: FieldKind, n: nat, m: nat)
    requires From(kind) <= n <= To(kind) < m < 100
    ensures ParseSimple(kind, ShowNat(n) + "-" + ShowNat(m)) == Err(OutOfRange)
  {
    var p := Between(Number(n), Number(m));
    assert SimplePiece(kind, p) == Err(OutOfRange);
    OnePieceError(kind, p, ShowNat(n) + "-" + ShowNat(m));
  }

  /** `N#K` in a number field is an unsupported modifier. */
  lemma NthRefusedInSimpleField(kind: FieldKind, n: nat, k: nat)
    requires n < 100
    ensures ParseSimple(kind, ShowNat(n) + "#" + ShowNat(k)) == Err(InvalidModifier)
  {
    SimpleOfOnePiece(kind, Nth(Number(n), k));
  }

  // ----- lists -----

  /** A text that parses as a number field and has no comma holds one range. */
  lemma OnePieceText(kind: FieldKind, t: string)
    requires ',' !in t && ParseSimple(kind, t).Ok?
    ensures CheckedPiece(t).Ok? && SimplePiece(kind, CheckedPiece(t).value).Ok?
    ensures ParseSimple(kind, t).value.ranges == [SimplePiece(kind, CheckedPiece(t).value).value]
  {
    SplitPiece(t, ',');
    assert FieldPieces(t) == MapResult([t], CheckedPiece);
  }

  /** A field whose ranges are those of one-range texts matches their union. */
  lemma UnionOfOneRangeTexts(kind: FieldKind, texts: seq<string>, f: SimpleField)
    requires |f.ranges| == |texts|
    requires forall i :: 0 <= i < |texts| ==>
      ParseSimple(kind, texts[i]).Ok? && ParseSimple(kind, texts[i]).value.ranges == [f.ranges[i]]
    ensures forall v :: f.Matches(v) <==> exists i :: 0 <= i < |texts| && ParseSimple(kind, texts[i]).value.Matches(v)
  {
    forall v ensures f.Matches(v) <==> exists i :: 0 <= i < |texts| && ParseSimple(kind, texts[i]).value.Matches(v) {
      if f.Matches(v) {
        var i :| 0 <= i < |f.ranges| && f.ranges[i].Contains(v);
        assert ParseSimple(kind, texts[i]).value.ranges[0].Contains(v);
      }
      if exists i :: 0 <= i < |texts| && ParseSimple(kind, texts[i]).value.Matches(v) {
        var i :| 0 <= i < |texts| && ParseSimple(kind, texts[i]).value.Matches(v);
        var g := ParseSimple(kind, texts[i]).value;
        var j :| 0 <= j < |g.ranges| && g.ranges[j].Contains(v);
        assert j == 0;
        assert f.ranges[i].Contains(v);
      }
    }
  }

  /** The pieces of comma-joined texts are the pieces of the texts. */
  lemma PiecesOfJoin(texts: seq<string>)
    requires |texts| >= 1
    requires forall i :: 0 <= i < |texts| ==> ',' !in texts[i] && CheckedPiece(texts[i]).Ok?
    ensures FieldPieces(Join(texts, ',')).Ok?
    ensures |FieldPieces(Join(texts, ',')).value| == |texts|
    ensures forall i :: 0 <= i < |texts| ==> FieldPieces(Join(texts, ',')).value[i] == CheckedPiece(texts[i]).value
  {
    SplitJoin(texts, ',');
  }

  lemma OnePieceTexts(kind: FieldKind, texts: seq<string>)
    requires forall i :: 0 <= i < |texts| ==> ',' !in texts[i] && ParseSimple(kind, texts[i]).Ok?
    ensures forall i :: 0 <= i < |texts| ==>
      CheckedPiece(texts[i]).Ok? && SimplePiece(kind, CheckedPiece(texts[i]).value).Ok? &&
      ParseSimple(kind, texts[i]).value.ranges == [SimplePiece(kind, CheckedPiece(texts[i]).value).value]
  {
    forall i | 0 <= i < |texts|
      ensures CheckedPiece(texts[i]).Ok? && SimplePiece(kind, CheckedPiece(texts[i]).value).Ok?
      ensures ParseSimple(kind, texts[i]).value.ranges == [SimplePiece(kind, CheckedPiece(texts[i]).value).value]
    {
      OnePieceText(kind, texts[i]);
    }
  }

  /** The ranges of a joined list are the ranges of its texts, in order. */
  lemma RangesOfJoin(kind: FieldKind, texts: seq<string>)
    requires |texts| >= 1
    requires forall i :: 0 <= i < |texts| ==> ',' !in texts[i] && ParseSimple(kind, texts[i]).Ok?
    ensures ParseSimple(kind, Join(texts, ',')).Ok?
    ensures |ParseSimple(kind, Join(texts, ',')).value.ranges| == |texts|
    ensures forall i :: 0 <= i < |texts| ==>
      ParseSimple(kind, texts[i]).value.ranges == [ParseSimple(kind, Join(texts, ',')).value.ranges[i]]
  {
    OnePieceTexts(kind, texts);
    PiecesOfJoin(texts);
    var pieces := FieldPieces(Join(texts, ',')).value;
    assert SimpleRanges(kind, pieces).Ok?;
  }

  /** A comma-separated list selects the union of what its pieces select. */
  lemma ListIsUnion(kind: FieldKind, texts: seq<string>)
    requires |texts| >= 1
    requires forall i :: 0 <= i < |texts| ==> ',' !in texts[i] && ParseSimple(kind, texts[i]).Ok?
    ensures ParseSimple(kind, Join(texts, ',')).Ok?
    ensures forall v :: ParseSimple(kind, Join(texts, ',')).value.Matches(v) <==>
      exists i :: 0 <= i < |texts| && ParseSimple(kind, texts[i]).value.Matches(v)
  {
    RangesOfJoin(kind, texts);
    UnionOfOneRangeTexts(kind, texts, ParseSimple(kind, Join(texts, ',')).value);
  }

  // ----- the ignore marker -----

  /** `?` is refused by every number field. */
  lemma QuestionRefusedInSimpleField(kind: FieldKind)
    ensures ParseSimple(kind, "?") == Err(IgnoreMisuse)
  {
    SimpleOfOnePiece(kind, Question);
    assert ShowPiece(Question) == "?";
  }

  /** `?` alone in a day field is accepted and lets every date through. */
  lemma QuestionAcceptedInDayFields()
    ensures ParseDayOfMonth("?") == Ok(DomIgnore)
    ensures ParseDayOfWeek("?") == Ok(DowIgnore)
    ensures forall d :: ValidDate(d) ==> DomIgnore.Matches(d) && DowIgnore.Matches(d)
  {
    PiecesOfOnePiece(Question);
    assert ShowPiece(Question) == "?";
  }

  /** A piece that holds `?` beside anything else is refused as a misused `?`,
      whatever the field. */
  lemma QuestionInPieceRefused(s: string)
    requires ',' !in s && '?' in s && s != "?"
    ensures ParseDayOfMonth(s) == Err(IgnoreMisuse)
    ensures ParseDayOfWeek(s) == Err(IgnoreMisuse)
    ensures forall kind :: ParseSimple(kind, s) == Err(IgnoreMisuse)
  {
    if LexPiece(s).Some? {
      QuestionOnlyAlone(s);
    }
    assert CheckedPiece(s) == Err(IgnoreMisuse);
    SplitPiece(s, ',');
    assert FieldPieces(s) == Err(IgnoreMisuse);
  }

  /** `?` must be a field of its own: in a list it is refused. */
  lemma QuestionInListRefused(texts: seq<string>, k: nat)
    requires |texts| >= 2 && k < |texts| && texts[k] == "?"
    requires forall i :: 0 <= i < |texts| ==> ',' !in texts[i]
    ensures ParseDayOfMonth(Join(texts, ',')).Err?
    ensures ParseDayOfWeek(Join(texts, ',')).Err?
  {
    SplitJoin(texts, ',');
    var pieces := FieldPieces(Join(texts, ','));
    if pieces.Ok? {
      assert CheckedPiece(texts[k]).value == Question by {
        assert ShowPiece(Question) == "?";
        LexShowPiece(Question);
      }
      assert pieces.value[k] == Question;
      assert pieces.value != [Question];
      assert DomPiece(pieces.value[k]).Err?;
      assert DowPiece(pieces.value[k]).Err?;
    }
  }

  // ----- day-of-month forms -----

  lemma DomOfOnePiece(p: Piece, text: string)
    requires Writable(p) && !p.Question? && text == ShowPiece(p)
    ensures var r := ParseDayOfMonth(text);
      (r.Ok? <==> DomPiece(p).Ok?) &&
      (r.Ok? ==> r.value == DomParts([DomPiece(p).value])) &&
      (r.Err? ==> r.error == DomPiece(p).error)
  {
    PiecesOfOnePiece(p);
  }

  lemma DowOfOnePiece(p: Piece, text: string)
    requires Writable(p) && !p.Question? && text == ShowPiece(p)
    ensures var r := ParseDayOfWeek(text);
      (r.Ok? <==> DowPiece(p).Ok?) &&
      (r.Ok? ==> r.value == DowParts([DowPiece(p).value])) &&
      (r.Err? ==> r.error == DowPiece(p).error)
  {
    PiecesOfOnePiece(p);
  }

  /** A one-piece day-of-month field matches what its part selects. */
  lemma DomPartMeaning(p: Piece, part: DomPart, text: string, d: Date)
    requires Writable(p) && !p.Question? && text == ShowPiece(p)
    requires DomPiece(p) == Ok(part) && ValidDate(d)
    ensures ParseDayOfMonth(text) == Ok(DomParts([part]))
    ensures ParseDayOfMonth(text).value.Matches(d) <==> DomPartMatches(part, d)
  {
    DomOfOnePiece(p, text);
  }

  lemma DowPartMeaning(p: Piece, part: DowPart, text: string, d: Date)
    requires Writable(p) && !p.Question? && text == ShowPiece(p)
    requires DowPiece(p) == Ok(part) && ValidDate(d)
    ensures ParseDayOfWeek(text) == Ok(DowParts([part]))
    ensures ParseDayOfWeek(text).value.Matches(d) <==> DowPartMatches(part, d)
  {
    DowOfOnePiece(p, text);
  }

  // ----- plain pieces and lists in the day fields -----

  /** A text of the plain grammar gives one day-of-month range part per range. */
  lemma DomPartsOfSimple(text: string)
    requires ParseSimple(DayOfMonth, text).Ok?
    ensures var r := ParseDayOfMonth(text); var ranges := ParseSimple(DayOfMonth, text).value.ranges;
      r.Ok? && r.value.DomParts? && |r.value.parts| == |ranges| &&
      forall i :: 0 <= i < |ranges| ==> r.value.parts[i] == DomRange(ranges[i])
  {
    var pieces := FieldPieces(text).value;
    var f := ParseSimple(DayOfMonth, text).value;
    forall i | 0 <= i < |pieces|
      ensures DomPiece(pieces[i]) == Ok(DomRange(f.ranges[i]))
    {
      assert SimplePiece(DayOfMonth, pieces[i]).Ok?;
    }
    assert pieces[0] != Question by {
      assert SimplePiece(DayOfMonth, pieces[0]).Ok?;
    }
    assert ParseDayOfMonth(text) == Ok(DomParts(MapResult(pieces, DomPiece).value));
  }

  lemma DowPartsOfSimple(text: string)
    requires ParseSimple(DayOfWeek, text).Ok?
    ensures var r := ParseDayOfWeek(text); var ranges := ParseSimple(DayOfWeek, text).value.ranges;
      r.Ok? && r.value.DowParts? && |r.value.parts| == |ranges| &&
      forall i :: 0 <= i < |ranges| ==> r.value.parts[i] == DowRange(ranges[i])
  {
    var pieces := FieldPieces(text).value;
    var f := ParseSimple(DayOfWeek, text).value;
    forall i | 0 <= i < |pieces|
      ensures DowPiece(pieces[i]) == Ok(DowRange(f.ranges[i]))
    {
      assert SimplePiece(DayOfWeek, pieces[i]).Ok?;
    }
    assert pieces[0] != Question by {
      assert SimplePiece(DayOfWeek, pieces[0]).Ok?;
    }
    assert ParseDayOfWeek(text) == Ok(DowParts(MapResult(pieces, DowPiece).value));
  }

  /** Range parts match a date exactly when the ranges hold its day. */
  lemma DomRangesMatch(parts: seq<DomPart>, ranges: seq<Range>, d: Date)
    requires |parts| == |ranges| && ValidDate(d)
    requires forall i :: 0 <= i < |ranges| ==> parts[i] == DomRange(ranges[i])
    ensures DomParts(parts).Matches(d) <==> SimpleField(DayOfMonth, ranges).Matches(d.day)
  {
    if SimpleField(DayOfMonth, ranges).Matches(d.day) {
      var i :| 0 <= i < |ranges| && ranges[i].Contains(d.day);
      assert DomPartMatches(parts[i], d);
    }
  }

  lemma DowRangesMatch(parts: seq<DowPart>, ranges: seq<Range>, d: Date)
    requires |parts| == |ranges| && ValidDate(d)
    requires forall i :: 0 <= i < |ranges| ==> parts[i] == DowRange(ranges[i])
    ensures DowParts(parts).Matches(d) <==> SimpleField(DayOfWeek, ranges).Matches(Weekday(d))
  {
    if SimpleField(DayOfWeek, ranges).Matches(Weekday(d)) {
      var i :| 0 <= i < |ranges| && ranges[i].Contains(Weekday(d));
      assert DowPartMatches(parts[i], d);
    }
  }

  /** A text of the plain grammar means in the day-of-month field what it means
      as a number field, read on the day of the month. */
  lemma DomReadsSimple(text: string, d: Date)
    requires ParseSimple(DayOfMonth, text).Ok? && ValidDate(d)
    ensures ParseDayOfMonth(text).Ok? && ParseDayOfMonth(text).value.DomParts?
    ensures ParseDayOfMonth(text).value.Matches(d) <==> ParseSimple(DayOfMonth, text).value.Matches(d.day)
  {
    DomPartsOfSimple(text);
    var f := ParseSimple(DayOfMonth, text).value;
    DomRangesMatch(ParseDayOfMonth(text).value.parts, f.ranges, d);
  }

  /** The same for the day-of-week field, read on the weekday. */
  lemma DowReadsSimple(text: string, d: Date)
    requires ParseSimple(DayOfWeek, text).Ok? && ValidDate(d)
    ensures ParseDayOfWeek(text).Ok? && ParseDayOfWeek(text).value.DowParts?
    ensures ParseDayOfWeek(text).value.Matches(d) <==> ParseSimple(DayOfWeek, text).value.Matches(Weekday(d))
  {
    DowPartsOfSimple(text);
    var f := ParseSimple(DayOfWeek, text).value;
    DowRangesMatch(ParseDayOfWeek(text).value.parts, f.ranges, d);
  }

  /** A comma-free day-of-month text other than `?` is one piece and one part. */
  lemma OneDomText(t: string)
    requires ',' !in t && ParseDayOfMonth(t).Ok? && ParseDayOfMonth(t).value.DomParts?
    ensures CheckedPiece(t).Ok? && CheckedPiece(t).value != Question
    ensures DomPiece(CheckedPiece(t).value).Ok?
    ensures ParseDayOfMonth(t).value.parts == [DomPiece(CheckedPiece(t).value).value]
  {
    SplitPiece(t, ',');
    assert FieldPieces(t) == MapResult([t], CheckedPiece);
  }

  lemma OneDowText(t: string)
    requires ',' !in t && ParseDayOfWeek(t).Ok? && ParseDayOfWeek(t).value.DowParts?
    ensures CheckedPiece(t).Ok? && CheckedPiece(t).value != Question
    ensures DowPiece(CheckedPiece(t).value).Ok?
    ensures ParseDayOfWeek(t).value.parts == [DowPiece(CheckedPiece(t).value).value]
  {
    SplitPiece(t, ',');
    assert FieldPieces(t) == MapResult([t], CheckedPiece);
  }

  /** The parts of a joined day-of-month list are the parts of its texts, in order. */
  lemma DomPartsOfJoin(texts: seq<string>)
    requires |texts| >= 1
    requires forall i :: 0 <= i < |texts| ==>
      ',' !in texts[i] && ParseDayOfMonth(texts[i]).Ok? && ParseDayOfMonth(texts[i]).value.DomParts?
    ensures var r := ParseDayOfMonth(Join(texts, ','));
      r.Ok? && r.value.DomParts? && |r.value.parts| == |texts| &&
      forall i :: 0 <= i < |texts| ==> ParseDayOfMonth(texts[i]).value.parts == [r.value.parts[i]]
  {
    forall i | 0 <= i < |texts|
      ensures CheckedPiece(texts[i]).Ok? && CheckedPiece(texts[i]).value != Question
      ensures DomPiece(CheckedPiece(texts[i]).value).Ok?
      ensures ParseDayOfMonth(texts[i]).value.parts == [DomPiece(CheckedPiece(texts[i]).value).value]
    {
      OneDomText(texts[i]);
    }
    PiecesOfJoin(texts);
    var pieces := FieldPieces(Join(texts, ',')).value;
    assert pieces[0] == CheckedPiece(texts[0]).value;
    var parts := MapResult(pieces, DomPiece).value;
    assert ParseDayOfMonth(Join(texts, ',')) == Ok(DomParts(parts));
  }

  lemma DowPartsOfJoin(texts: seq<string>)
    requires |texts| >= 1
    requires forall i :: 0 <= i < |texts| ==>
      ',' !in texts[i] && ParseDayOfWeek(texts[i]).Ok? && ParseDayOfWeek(texts[i]).value.DowParts?
    ensures var r := ParseDayOfWeek(Join(texts, ','));
      r.Ok? && r.value.DowParts? && |r.value.parts| == |texts| &&
      forall i :: 0 <= i < |texts| ==> ParseDayOfWeek(texts[i]).value.parts == [r.value.parts[i]]
  {
    forall i | 0 <= i < |texts|
      ensures CheckedPiece(texts[i]).Ok? && CheckedPiece(texts[i]).value != Question
      ensures DowPiece(CheckedPiece(texts[i]).value).Ok?
      ensures ParseDayOfWeek(texts[i]).value.parts == [DowPiece(CheckedPiece(texts[i]).value).value]
    {
      OneDowText(texts[i]);
    }
    PiecesOfJoin(texts);
    var pieces := FieldPieces(Join(texts, ',')).value;
    assert pieces[0] == CheckedPiece(texts[0]).value;
    var parts := MapResult(pieces, DowPiece).value;
    assert ParseDayOfWeek(Join(texts, ',')) == Ok(DowParts(parts));
  }

  /** A one-part field matches what its part selects. */
  lemma DomOnePart(f: DayOfMonthField, part: DomPart, d: Date)
    requires f == DomParts([part]) && ValidDate(d)
    ensures f.Matches(d) <==> DomPartMatches(part, d)
  {
    if DomPartMatches(part, d) {
      assert DomPartMatches(f.parts[0], d);
    }
  }

  /** A list of parts matches a date exactly when one of the one-part fields of its texts does. */
  lemma DomUnionOfTexts(texts: seq<string>, parts: seq<DomPart>, d: Date)
    requires |parts| == |texts| && ValidDate(d)
    requires forall i :: 0 <= i < |texts| ==> ParseDayOfMonth(texts[i]).Ok? && ParseDayOfMonth(texts[i]).value == DomParts([parts[i]])
    ensures DomParts(parts).Matches(d) <==> exists i :: 0 <= i < |texts| && ParseDayOfMonth(texts[i]).value.Matches(d)
  {
    forall i | 0 <= i < |texts|
      ensures ParseDayOfMonth(texts[i]).value.Matches(d) <==> DomPartMatches(parts[i], d)
    {
      DomOnePart(ParseDayOfMonth(texts[i]).value, parts[i], d);
    }
  }

  lemma DowOnePart(f: DayOfWeekField, part: DowPart, d: Date)
    requires f == DowParts([part]) && ValidDate(d)
    ensures f.Matches(d) <==> DowPartMatches(part, d)
  {
    if DowPartMatches(part, d) {
      assert DowPartMatches(f.parts[0], d);
    }
  }

  lemma DowUnionOfTexts(texts: seq<string>, parts: seq<DowPart>, d: Date)
    requires |parts| == |texts| && ValidDate(d)
    requires forall i :: 0 <= i < |texts| ==> ParseDayOfWeek(texts[i]).Ok? && ParseDayOfWeek(texts[i]).value == DowParts([parts[i]])
    ensures DowParts(parts).Matches(d) <==> exists i :: 0 <= i < |texts| && ParseDayOfWeek(texts[i]).value.Matches(d)
  {
    forall i | 0 <= i < |texts|
      ensures ParseDayOfWeek(texts[i]).value.Matches(d) <==> DowPartMatches(parts[i], d)
    {
      DowOnePart(ParseDayOfWeek(texts[i]).value, parts[i], d);
    }
  }

  /** A comma list in the day-of-month field selects the union of what its pieces select. */
  lemma DomListIsUnion(texts: seq<string>, d: Date)
    requires |texts| >= 1 && ValidDate(d)
    requires forall i :: 0 <= i < |texts| ==>
      ',' !in texts[i] && ParseDayOfMonth(texts[i]).Ok? && ParseDayOfMonth(texts[i]).value.DomParts?
    ensures ParseDayOfMonth(Join(texts, ',')).Ok? && ParseDayOfMonth(Join(texts, ',')).value.DomParts?
    ensures ParseDayOfMonth(Join(texts, ',')).value.Matches(d) <==>
      exists i :: 0 <= i < |texts| && ParseDayOfMonth(texts[i]).value.Matches(d)
  {
    DomPartsOfJoin(texts);
    var f := ParseDayOfMonth(Join(texts, ',')).value;
    DomUnionOfTexts(texts, f.parts, d);
  }

  /** A comma list in the day-of-week field selects the union of what its pieces select. */
  lemma DowListIsUnion(texts: seq<string>, d: Date)
    requires |texts| >= 1 && ValidDate(d)
    requires forall i :: 0 <= i < |texts| ==>
      ',' !in texts[i] && ParseDayOfWeek(texts[i]).Ok? && ParseDayOfWeek(texts[i]).value.DowParts?
    ensures ParseDayOfWeek(Join(texts, ',')).Ok? && ParseDayOfWeek(Join(texts, ',')).value.DowParts?
    ensures ParseDayOfWeek(Join(texts, ',')).value.Matches(d) <==>
      exists i :: 0 <= i < |texts| && ParseDayOfWeek(texts[i]).value.Matches(d)
  {
    DowPartsOfJoin(texts);
    var f := ParseDayOfWeek(Join(texts, ',')).value;
    DowUnionOfTexts(texts, f.parts, d);
  }

  /** A day-of-month text reads a date as its simple reading reads the day. */
  lemma DomReadsAs(text: string, d: Date, selected: bool)
    requires ParseSimple(DayOfMonth, text).Ok? && ValidDate(d)
    requires ParseSimple(DayOfMonth, text).value.Matches(d.day) <==> selected
    ensures ParseDayOfMonth(text).Ok?
    ensures ParseDayOfMonth(text).value.Matches(d) <==> selected
  {
    DomReadsSimple(text, d);
  }

  /** `N/S` read as a simple day-of-month field, at one value. */
  lemma DomIncrementAt(text: string, n: nat, s: nat, x: int)
    requires text == ShowNat(n) + "/" + ShowNat(s) && 1 <= n <= 31 && s >= 1
    ensures ParseSimple(DayOfMonth, text).Ok?
    ensures ParseSimple(DayOfMonth, text).value.Matches(x) <==> n <= x <= 31 && (x - n) % s == 0
  {
    IncrementSelectsFromStart(DayOfMonth, n, s);
  }

  /** `N/S` in the day-of-month field: day N and every S-th day after it. */
  lemma DomIncrementSelects(text: string, n: nat, s: nat, d: Date)
    requires text == ShowNat(n) + "/" + ShowNat(s)
    requires 1 <= n <= 31 && s >= 1 && ValidDate(d)
    ensures ParseDayOfMonth(text).Ok?
    ensures ParseDayOfMonth(text).value.Matches(d) <==> n <= d.day <= 31 && (d.day - n) % s == 0
  {
    DomIncrementAt(text, n, s, d.day);
    DomReadsAs(text, d, n <= d.day <= 31 && (d.day - n) % s == 0);
  }

  /** A day-of-week text reads a date as its simple reading reads the weekday. */
  lemma DowReadsAs(text: string, d: Date, selected: bool)
    requires ParseSimple(DayOfWeek, text).Ok? && ValidDate(d)
    requires ParseSimple(DayOfWeek, text).value.Matches(Weekday(d)) <==> selected
    ensures ParseDayOfWeek(text).Ok?
    ensures ParseDayOfWeek(text).value.Matches(d) <==> selected
  {
    DowReadsSimple(text, d);
  }

  /** `N/S` read as a simple day-of-week field, at one value. */
  lemma DowIncrementAt(text: string, n: nat, s: nat, x: int)
    requires text == ShowNat(n) + "/" + ShowNat(s) && 1 <= n <= 7 && s >= 1
    ensures ParseSimple(DayOfWeek, text).Ok?
    ensures ParseSimple(DayOfWeek, text).value.Matches(x) <==> n <= x <= 7 && (x - n) % s == 0
  {
    IncrementSelectsFromStart(DayOfWeek, n, s);
  }

  /** `N/S` in the day-of-week field: weekday N and every S-th weekday after it up to Sunday. */
  lemma DowIncrementSelects(text: string, n: nat, s: nat, d: Date)
    requires text == ShowNat(n) + "/" + ShowNat(s)
    requires 1 <= n <= 7 && s >= 1 && ValidDate(d)
    ensures ParseDayOfWeek(text).Ok?
    ensures ParseDayOfWeek(text).value.Matches(d) <==> n <= Weekday(d) <= 7 && (Weekday(d) - n) % s == 0
  {
    DowIncrementAt(text, n, s, Weekday(d));
    DowReadsAs(text, d, n <= Weekday(d) <= 7 && (Weekday(d) - n) % s == 0);
  }

  /** The numerals of a list of numbers. */
  function Numerals(ns: seq<nat>): (r: seq<string>)
    ensures |r| == |ns| && forall i :: 0 <= i < |ns| ==> r[i] == ShowNat(ns[i])
  {
    seq(|ns|, i requires 0 <= i < |ns| => ShowNat(ns[i]))
  }

  /** A list of day numbers selects exactly those days of the month. */
  lemma DomNumberListSelects(ns: seq<nat>, d: Date)
    requires |ns| >= 1 && ValidDate(d)
    requires forall i :: 0 <= i < |ns| ==> 1 <= ns[i] <= 31
    ensures ParseDayOfMonth(Join(Numerals(ns), ',')).Ok?
    ensures ParseDayOfMonth(Join(Numerals(ns), ',')).value.Matches(d) <==> d.day in ns
  {
    var texts := Numerals(ns);
    forall i | 0 <= i < |texts|
      ensures ',' !in texts[i] && ParseDayOfMonth(texts[i]).Ok? && ParseDayOfMonth(texts[i]).value.DomParts?
      ensures ParseDayOfMonth(texts[i]).value.Matches(d) <==> d.day == ns[i]
    {
      NumeralHasNoComma(ns[i]);
      NumberSelectsItself(DayOfMonth, ns[i]);
      DomReadsSimple(texts[i], d);
    }
    DomListIsUnion(texts, d);
  }

  /** A list of weekday numbers selects exactly those weekdays. */
  lemma DowNumberListSelects(ns: seq<nat>, d: Date)
    requires |ns| >= 1 && ValidDate(d)
    requires forall i :: 0 <= i < |ns| ==> 1 <= ns[i] <= 7
    ensures ParseDayOfWeek(Join(Numerals(ns), ',')).Ok?
    ensures ParseDayOfWeek(Join(Numerals(ns), ',')).value.Matches(d) <==> Weekday(d) in ns
  {
    var texts := Numerals(ns);
    forall i | 0 <= i < |texts|
      ensures ',' !in texts[i] && ParseDayOfWeek(texts[i]).Ok? && ParseDayOfWeek(texts[i]).value.DowParts?
      ensures ParseDayOfWeek(texts[i]).value.Matches(d) <==> Weekday(d) == ns[i]
    {
      NumeralHasNoComma(ns[i]);
      NumberSelectsItself(DayOfWeek, ns[i]);
      DowReadsSimple(texts[i], d);
    }
    DowListIsUnion(texts, d);
  }

  /** A weekday name alone selects exactly the weekday it names. */
  lemma DowNameSelects(name: string, d: Date)
    requires WritableAtom(Name(name)) && NameValue(DayOfWeek, name).Some? && ValidDate(d)
    ensures ',' !in name && ParseDayOfWeek(name).Ok? && ParseDayOfWeek(name).value.DowParts?
    ensures ParseDayOfWeek(name).value.Matches(d) <==> NameValue(DayOfWeek, name) == Some(Weekday(d))
  {
    var v := NameValue(DayOfWeek, name).value;
    assert ',' !in name by {
      ShowPieceHasNoComma(Single(Name(name)));
    }
    assert ParseSimple(DayOfWeek, name).Ok? &&
      (ParseSimple(DayOfWeek, name).value.Matches(Weekday(d)) <==> Weekday(d) == v) by {
      NameSelectsItsValue(DayOfWeek, name);
      assert ParseSimple(DayOfWeek, name).value.ranges == [Range(v, v, 1)];
    }
    DowReadsSimple(name, d);
  }

  /** A list of weekday names selects exactly the weekdays they name. */
  lemma DowNameListSelects(names: seq<string>, d: Date)
    requires |names| >= 1 && ValidDate(d)
    requires forall i :: 0 <= i < |names| ==> WritableAtom(Name(names[i])) && NameValue(DayOfWeek, names[i]).Some?
    ensures ParseDayOfWeek(Join(names, ',')).Ok?
    ensures ParseDayOfWeek(Join(names, ',')).value.Matches(d) <==>
      exists i :: 0 <= i < |names| && NameValue(DayOfWeek, names[i]) == Some(Weekday(d))
  {
    forall i | 0 <= i < |names|
      ensures ',' !in names[i] && ParseDayOfWeek(names[i]).Ok? && ParseDayOfWeek(names[i]).value.DowParts?
      ensures ParseDayOfWeek(names[i]).value.Matches(d) <==> NameValue(DayOfWeek, names[i]) == Some(Weekday(d))
    {
      DowNameSelects(names[i], d);
    }
    DowListIsUnion(names, d);
  }

  /** `L`: the last day of the month, leap years included. */
  lemma LastDayOfMonthSelected(d: Date)
    requires ValidDate(d)
    ensures ParseDayOfMonth("L").Ok?
    ensures ParseDayOfMonth("L").value.Matches(d) <==> d.day == DaysInMonth(d.year, d.month)
  {
    assert ShowPiece(Last) == "L";
    DomPartMeaning(Last, DomLast(0), "L", d);
  }

  /** `nL`: n days before the last day of the month. */
  lemma DaysBeforeLastSelected(n: nat, d: Date)
    requires 1 <= n <= 30 && ValidDate(d)
    ensures ParseDayOfMonth(ShowNat(n) + "L").Ok?
    ensures ParseDayOfMonth(ShowNat(n) + "L").value.Matches(d) <==> d.day == DaysInMonth(d.year, d.month) - n
  {
    var p := WithLast(Number(n));
    var text := ShowNat(n) + "L";
    assert text == ShowPiece(p);
    DomPartMeaning(p, DomLast(n), text, d);
  }

  /** `nW`: the weekday nearest to day n, in months that have a day n. */
  lemma NearestWeekdaySelected(n: nat, d: Date)
    requires 1 <= n <= 31 && ValidDate(d)
    ensures ParseDayOfMonth(ShowNat(n) + "W").Ok?
    ensures ParseDayOfMonth(ShowNat(n) + "W").value.Matches(d) <==>
      n <= DaysInMonth(d.year, d.month) && d.day == NearestWeekday(d.year, d.month, n)
  {
    var p := WithWeekday(Number(n));
    var text := ShowNat(n) + "W";
    assert text == ShowPiece(p);
    DomPartMeaning(p, DomNearestWeekday(n), text, d);
  }

  /** `N#K` is not a day-of-month form. */
  lemma NthRefusedInDayOfMonth(n: nat, k: nat)
    requires n < 100
    ensures ParseDayOfMonth(ShowNat(n) + "#" + ShowNat(k)) == Err(InvalidModifier)
  {
    DomOfOnePiece(Nth(Number(n), k), ShowNat(n) + "#" + ShowNat(k));
  }

  /** A letter after a number other than L or W is malformed. */
  lemma UnknownSuffixRefused(n: nat, c: char)
    requires n < 100 && IsLetter(c) && !IsL(c) && !IsW(c)
    ensures ParseDayOfMonth(ShowNat(n) + [c]).Err?
    ensures ParseDayOfWeek(ShowNat(n) + [c]).Err?
  {
    var s := ShowNat(n) + [c];
    LexShowAtom(Number(n), [c]);
    LexAtomLed(Number(n), [c]);
    assert LexPiece(s).None?;
    PiecesFailOnBadPiece(s);
  }

  /** A text without commas that does not lex makes every day field fail. */
  lemma PiecesFailOnBadPiece(s: string)
    requires ',' !in s && LexPiece(s).None?
    ensures FieldPieces(s).Err?
    ensures ParseDayOfMonth(s).Err? && ParseDayOfWeek(s).Err?
    ensures forall kind :: ParseSimple(kind, s).Err?
  {
    SplitPiece(s, ',');
  }

  // ----- day-of-week forms -----

  /** `dL`: weekday d, late enough that no later one fits in the month. */
  lemma LastWeekdaySelected(n: nat, d: Date)
    requires n <= 7 && ValidDate(d)
    ensures ParseDayOfWeek(ShowNat(n) + "L").Ok?
    ensures ParseDayOfWeek(ShowNat(n) + "L").value.Matches(d) <==>
      Weekday(d) == (if n == 0 then 7 else n) && d.day + 7 > DaysInMonth(d.year, d.month)
    ensures ParseDayOfWeek(ShowNat(n) + "L").value.Matches(d) <==>
      Weekday(d) == (if n == 0 then 7 else n) &&
      forall e :: d.day < e <= DaysInMonth(d.year, d.month) ==> Weekday(Date(d.year, d.month, e)) != (if n == 0 then 7 else n)
  {
    LastWeekdayIsLast(if n == 0 then 7 else n, d);
    var p := WithLast(Number(n));
    var text := ShowNat(n) + "L";
    assert text == ShowPiece(p);
    assert DowPiece(p) == Ok(DowLast(if n == 0 then 7 else n)) by {
      assert FieldValue(DayOfWeek, Number(n)) == Ok(if n == 0 then 7 else n);
    }
    DowPartMeaning(p, DowLast(if n == 0 then 7 else n), text, d);
  }

  /** `d#k`: weekday d in the k-th week of the month. */
  lemma NthWeekdaySelected(n: nat, k: nat, d: Date)
    requires n <= 7 && 1 <= k <= 5 && ValidDate(d)
    ensures ParseDayOfWeek(ShowNat(n) + "#" + ShowNat(k)).Ok?
    ensures ParseDayOfWeek(ShowNat(n) + "#" + ShowNat(k)).value.Matches(d) <==>
      Weekday(d) == (if n == 0 then 7 else n) && (d.day - 1) / 7 + 1 == k
    ensures ParseDayOfWeek(ShowNat(n) + "#" + ShowNat(k)).value.Matches(d) <==>
      Weekday(d) == (if n == 0 then 7 else n) && Occurrences(d.year, d.month, if n == 0 then 7 else n, d.day) == k
  {
    var w := if n == 0 then 7 else n;
    NthWeekdayIsNth(w, k, d);
    NthPiece(n, k);
    DowPartMeaning(Nth(Number(n), k), DowNth(w, k), ShowNat(n) + "#" + ShowNat(k), d);
  }

  lemma NthPiece(n: nat, k: nat)
    requires n <= 7
    ensures ShowPiece(Nth(Number(n), k)) == ShowNat(n) + "#" + ShowNat(k)
    ensures DowPiece(Nth(Number(n), k)) ==
      if 1 <= k <= 5 then Ok(DowNth(if n == 0 then 7 else n, k)) else Err(OutOfRange)
  {
    assert FieldValue(DayOfWeek, Number(n)) == Ok(if n == 0 then 7 else n);
  }

  /** `N#K` with K outside 1..5 is refused. */
  lemma NthOutOfRangeRefused(n: nat, k: nat)
    requires n <= 7 && (k == 0 || k > 5)
    ensures ParseDayOfWeek(ShowNat(n) + "#" + ShowNat(k)) == Err(OutOfRange)
  {
    NthPiece(n, k);
    DowOfOnePiece(Nth(Number(n), k), ShowNat(n) + "#" + ShowNat(k));
  }

  /** `NW` is not a day-of-week form. */
  lemma NearestWeekdayRefusedInDayOfWeek(n: nat)
    requires n < 100
    ensures ParseDayOfWeek(ShowNat(n) + "W") == Err(InvalidModifier)
  {
    DowOfOnePiece(WithWeekday(Number(n)), ShowNat(n) + "W");
  }

  /** `?` after a number is not a modifier: the piece is malformed. */
  lemma QuestionAfterNumberRefused(n: nat, k: nat)
    requires n < 100
    ensures ParseDayOfWeek(ShowNat(n) + "?" + ShowNat(k)) == Err(IgnoreMisuse)
    ensures ParseDayOfMonth(ShowNat(n) + "?" + ShowNat(k)) == Err(IgnoreMisuse)
  {
    var s := ShowNat(n) + "?" + ShowNat(k);
    assert s[|ShowNat(n)|] == '?';
    assert ',' !in s by { NumeralHasNoComma(n); NumeralHasNoComma(k); }
    QuestionInPieceRefused(s);
  }

  // ----- names -----

  /** A three-letter name, in any letter case, selects the value it names. */
  lemma NameSelectsItsValue(kind: FieldKind, s: string)
    requires WritableAtom(Name(s)) && NameValue(kind, s).Some?
    ensures var v := NameValue(kind, s).value;
      ParseSimple(kind, s) == Ok(SimpleField(kind, [Range(v, v, 1)]))
  {
    var v := NameValue(kind, s).value;
    OneRangeMeaning(kind, Single(Name(s)), Range(v, v, 1), s);
  }

  /** A weekday name may carry `L` or `#k` like a weekday number. */
  lemma WeekdayNameForms(s: string, k: nat)
    requires WritableAtom(Name(s)) && NameValue(DayOfWeek, s).Some? && 1 <= k <= 5
    ensures var w := NameValue(DayOfWeek, s).value;
      ParseDayOfWeek(s) == Ok(DowParts([DowRange(Range(w, w, 1))])) &&
      ParseDayOfWeek(s + "L") == Ok(DowParts([DowLast(w)])) &&
      ParseDayOfWeek(s + "#" + ShowNat(k)) == Ok(DowParts([DowNth(w, k)]))
  {
    DowOfOnePiece(Single(Name(s)), s);
    DowOfOnePiece(WithLast(Name(s)), s + "L");
    DowOfOnePiece(Nth(Name(s), k), s + "#" + ShowNat(k));
  }

  /** The number 0 or 7 alone, before `L` or before `#k` names Sunday. */
  lemma SundayNumber(n: nat)
    requires n == 0 || n == 7
    ensures ParseDayOfWeek(ShowNat(n)) == Ok(DowParts([DowRange(Range(7, 7, 1))]))
    ensures ParseDayOfWeek(ShowNat(n) + "L") == Ok(DowParts([DowLast(7)]))
  {
    assert FieldValue(DayOfWeek, Number(n)) == Ok(7);
    DowOfOnePiece(Single(Number(n)), ShowNat(n));
    DowOfOnePiece(WithLast(Number(n)), ShowNat(n) + "L");
  }

  lemma SundayNth(n: nat, k: nat)
    requires (n == 0 || n == 7) && 1 <= k <= 5
    ensures ParseDayOfWeek(ShowNat(n) + "#" + ShowNat(k)) == Ok(DowParts([DowNth(7, k)]))
  {
    NthPiece(n, k);
    DowOfOnePiece(Nth(Number(n), k), ShowNat(n) + "#" + ShowNat(k));
  }

  /** Weekday 0 and weekday 7 are both Sunday. */
  lemma ZeroIsSunday()
    ensures ParseDayOfWeek("0") == ParseDayOfWeek("7") == Ok(DowParts([DowRange(Range(7, 7, 1))]))
  {
    assert ShowNat(0) == "0" && ShowNat(7) == "7";
    SundayNumber(0);
    SundayNumber(7);
  }

  lemma ZeroIsSundayInLast()
    ensures ParseDayOfWeek("0L") == ParseDayOfWeek("7L") == Ok(DowParts([DowLast(7)]))
  {
    assert ShowNat(0) + "L" == "0L" && ShowNat(7) + "L" == "7L";
    SundayNumber(0);
    SundayNumber(7);
  }

  lemma ZeroIsSundayInNth(k: nat)
    requires 1 <= k <= 5
    ensures ParseDayOfWeek("0#" + ShowNat(k)) == ParseDayOfWeek("7#" + ShowNat(k)) == Ok(DowParts([DowNth(7, k)]))
  {
    assert ShowNat(0) + "#" + ShowNat(k) == "0#" + ShowNat(k);
    assert ShowNat(7) + "#" + ShowNat(k) == "7#" + ShowNat(k);
    SundayNth(0, k);
    SundayNth(7, k);
  }
}
