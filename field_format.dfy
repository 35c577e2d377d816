/** A canonical text for every valid field, and the proof that the field
    parsers read each such text back as the same field. */
module FieldFormat {
  import opened Results
  import opened Text
  import opened FieldKinds
  import opened FieldSyntax
  import opened Fields

  // ----- from field values back to pieces -----

  function RangePiece(r: Range): Piece
    requires r.lo >= 0 && r.hi >= 0
  {
    if r.step == 1 && r.lo == r.hi then Single(Number(r.lo))
    else if r.step == 1 then Between(Number(r.lo), Number(r.hi))
    else BetweenStepped(Number(r.lo), Number(r.hi), r.step)
  }

  function DomPartPiece(p: DomPart): Piece
    requires ValidDomPart(p)
  {
    match p
    case DomRange(r) => RangePiece(r)
    case DomLast(k) => if k == 0 then Last else WithLast(Number(k))
    case DomNearestWeekday(n) => WithWeekday(Number(n))
  }

  function DowPartPiece(p: DowPart): Piece
    requires ValidDowPart(p)
  {
    match p
    case DowRange(r) => RangePiece(r)
    case DowLast(w) => WithLast(Number(w))
    case DowNth(w, k) => Nth(Number(w), k)
  }

  /** The pieces written out and joined by commas. */
  function FormatPieces(ps: seq<Piece>): string
    requires |ps| >= 1
  {
    Join(ShowPieces(ps), ',')
  }

  function ShowPieces(ps: seq<Piece>): (texts: seq<string>)
    ensures |texts| == |ps| && forall i :: 0 <= i < |ps| ==> texts[i] == ShowPiece(ps[i])
  {
    seq(|ps|, i requires 0 <= i < |ps| => ShowPiece(ps[i]))
  }

  function FormatSimple(f: SimpleField): string
    requires f.Valid()
  {
    FormatPieces(seq(|f.ranges|, i requires 0 <= i < |f.ranges| => RangePiece(f.ranges[i])))
  }

  predicate ValidDayOfMonth(f: DayOfMonthField) {
    f.DomParts? ==> |f.parts| >= 1 && forall i :: 0 <= i < |f.parts| ==> ValidDomPart(f.parts[i])
  }

  predicate ValidDayOfWeek(f: DayOfWeekField) {
    f.DowParts? ==> |f.parts| >= 1 && forall i :: 0 <= i < |f.parts| ==> ValidDowPart(f.parts[i])
  }

  function FormatDayOfMonth(f: DayOfMonthField): string
    requires ValidDayOfMonth(f)
  {
    match f
    case DomIgnore => "?"
    case DomParts(parts) =>
      FormatPieces(seq(|parts|, i requires 0 <= i < |parts| => DomPartPiece(parts[i])))
  }

  function FormatDayOfWeek(f: DayOfWeekField): string
    requires ValidDayOfWeek(f)
  {
    match f
    case DowIgnore => "?"
    case DowParts(parts) =>
      FormatPieces(seq(|parts|, i requires 0 <= i < |parts| => DowPartPiece(parts[i])))
  }

  // ----- each value goes back to itself through its piece -----

  lemma RangePieceRoundTrip(kind: FieldKind, r: Range)
    requires Within(kind, r)
    ensures Writable(RangePiece(r))
    ensures SimplePiece(kind, RangePiece(r)) == Ok(r)
  {
  }

  lemma DomPartRoundTrip(p: DomPart)
    requires ValidDomPart(p)
    ensures Writable(DomPartPiece(p)) && !DomPartPiece(p).Question?
    ensures DomPiece(DomPartPiece(p)) == Ok(p)
  {
    if p.DomRange? {
      RangePieceRoundTrip(DayOfMonth, p.range);
    }
  }

  lemma DowPartRoundTrip(p: DowPart)
    requires ValidDowPart(p)
    ensures Writable(DowPartPiece(p)) && !DowPartPiece(p).Question?
    ensures DowPiece(DowPartPiece(p)) == Ok(p)
  {
    if p.DowRange? {
      RangePieceRoundTrip(DayOfWeek, p.range);
    }
  }

  // ----- whole fields -----

  /** Splitting and lexing a formatted list gives back its pieces. */
  lemma FieldPiecesOfFormat(ps: seq<Piece>)
    requires |ps| >= 1 && forall i :: 0 <= i < |ps| ==> Writable(ps[i])
    ensures FieldPieces(FormatPieces(ps)) == Ok(ps)
  {
    var texts := ShowPieces(ps);
    forall i | 0 <= i < |texts|
      ensures ',' !in texts[i] && CheckedPiece(texts[i]) == Ok(ps[i])
    {
      ShowPieceHasNoComma(ps[i]);
      LexShowPiece(ps[i]);
    }
    SplitJoin(texts, ',');
    var r := MapResult(texts, CheckedPiece);
    assert r.Ok?;
    assert r.value == ps;
  }

  /** A formatted list contains no whitespace. */
  lemma FormatPiecesIsWord(ps: seq<Piece>)
    requires |ps| >= 1 && forall i :: 0 <= i < |ps| ==> Writable(ps[i])
    ensures IsWord(FormatPieces(ps))
  {
    var texts := ShowPieces(ps);
    forall i | 0 <= i < |texts|
      ensures IsWord(texts[i])
    {
      ShowPieceIsWord(ps[i]);
    }
    JoinIsWord(texts, ',');
  }

  /** Applying a piece parser to printed values gives the values back. */
  lemma MapRoundTrip<T>(xs: seq<T>, ps: seq<Piece>, parse: Piece -> Result<T>)
    requires |xs| == |ps|
    requires forall i :: 0 <= i < |xs| ==> parse(ps[i]) == Ok(xs[i])
    ensures MapResult(ps, parse) == Ok(xs)
  {
    var r := MapResult(ps, parse);
    assert r.Ok?;
    assert r.value == xs;
  }

  lemma SimpleRoundTrip(f: SimpleField)
    requires f.Valid()
    ensures ParseSimple(f.kind, FormatSimple(f)) == Ok(f)
    ensures IsWord(FormatSimple(f))
  {
    var ps := seq(|f.ranges|, i requires 0 <= i < |f.ranges| => RangePiece(f.ranges[i]));
    forall i | 0 <= i < |ps|
      ensures Writable(ps[i]) && SimplePiece(f.kind, ps[i]) == Ok(f.ranges[i])
    {
      RangePieceRoundTrip(f.kind, f.ranges[i]);
    }
    FieldPiecesOfFormat(ps);
    FormatPiecesIsWord(ps);
    MapRoundTrip(f.ranges, ps, p => SimplePiece(f.kind, p));
    assert SimpleRanges(f.kind, ps) == Ok(f.ranges);
  }

  lemma DayOfMonthRoundTrip(f: DayOfMonthField)
    requires ValidDayOfMonth(f)
    ensures ParseDayOfMonth(FormatDayOfMonth(f)) == Ok(f)
    ensures IsWord(FormatDayOfMonth(f))
  {
    if f.DomIgnore? {
      FieldPiecesOfFormat([Question]);
      assert FormatPieces([Question]) == "?";
      assert IsWord("?");
    } else {
      var ps := seq(|f.parts|, i requires 0 <= i < |f.parts| => DomPartPiece(f.parts[i]));
      forall i | 0 <= i < |ps|
        ensures Writable(ps[i]) && !ps[i].Question? && DomPiece(ps[i]) == Ok(f.parts[i])
      {
        DomPartRoundTrip(f.parts[i]);
      }
      FieldPiecesOfFormat(ps);
      FormatPiecesIsWord(ps);
      assert ps != [Question] by {
        assert !ps[0].Question?;
      }
      MapRoundTrip(f.parts, ps, DomPiece);
    }
  }

  lemma DayOfWeekRoundTrip(f: DayOfWeekField)
    requires ValidDayOfWeek(f)
    ensures ParseDayOfWeek(FormatDayOfWeek(f)) == Ok(f)
    ensures IsWord(FormatDayOfWeek(f))
  {
    if f.DowIgnore? {
      FieldPiecesOfFormat([Question]);
      assert FormatPieces([Question]) == "?";
      assert IsWord("?");
    } else {
      var ps := seq(|f.parts|, i requires 0 <= i < |f.parts| => DowPartPiece(f.parts[i]));
      forall i | 0 <= i < |ps|
        ensures Writable(ps[i]) && !ps[i].Question? && DowPiece(ps[i]) == Ok(f.parts[i])
      {
        DowPartRoundTrip(f.parts[i]);
      }
      FieldPiecesOfFormat(ps);
      FormatPiecesIsWord(ps);
      assert ps != [Question] by {
        assert !ps[0].Question?;
      }
      MapRoundTrip(f.parts, ps, DowPiece);
    }
  }
}
