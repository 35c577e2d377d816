/** The lexical grammar of one comma-separated piece of a cron field, before
    any field-specific meaning is given to it. Letters are matched without
    regard to case. */
module FieldSyntax {
  import opened Results
  import opened Text

  /** A value as written: a numeral of one or two digits, or a three-letter name. */
  datatype Atom = Number(value: nat) | Name(letters: string)

  /** The shapes a piece can take. */
  datatype Piece =
    | Star                                         // *
    | StarStep(step: nat)                          // */S
    | Question                                     // ?
    | Last                                         // L
    | Single(start: Atom)                          // N
    | Stepped(start: Atom, step: nat)              // N/S
    | Between(start: Atom, stop: Atom)             // N-M
    | BetweenStepped(start: Atom, stop: Atom, step: nat) // N-M/S
    | WithLast(start: Atom)                        // NL
    | WithWeekday(start: Atom)                     // NW
    | Nth(start: Atom, nth: nat)                   // N#K

  predicate IsL(c: char) {
    c == 'L' || c == 'l'
  }

  predicate IsW(c: char) {
    c == 'W' || c == 'w'
  }

  /** Reads one atom off the front of `s` and returns it with the rest of `s`. */
  function LexAtom(s: string): (r: Option<(Atom, string)>)
    ensures r.Some? ==> |r.value.1| < |s|
  {
    if s != [] && IsDigit(s[0]) then
      var n := DigitRun(s);
      if n <= 2 then Some((Number(NumberValue(s[..n])), s[n..])) else None
    else if |s| >= 3 && IsLetter(s[0]) && IsLetter(s[1]) && IsLetter(s[2]) then
      Some((Name(s[..3]), s[3..]))
    else
      None
  }

  /** A whole string of digits, as an increment or an occurrence number. */
  function LexNumber(s: string): (r: Option<nat>)
    ensures r.Some? <==> s != [] && AllDigits(s)
  {
    if s != [] && AllDigits(s) then Some(NumberValue(s)) else None
  }

  function LexAfterRange(a: Atom, b: Atom, rest: string): Option<Piece> {
    if rest == [] then Some(Between(a, b))
    else if rest[0] == '/' then
      match LexNumber(rest[1..])
      case Some(n) => Some(BetweenStepped(a, b, n))
      case None => None
    else None
  }

  function LexAfterAtom(a: Atom, rest: string): Option<Piece> {
    if rest == [] then Some(Single(a))
    else if |rest| == 1 && IsL(rest[0]) then Some(WithLast(a))
    else if |rest| == 1 && IsW(rest[0]) then Some(WithWeekday(a))
    else if rest[0] == '/' then
      match LexNumber(rest[1..])
      case Some(n) => Some(Stepped(a, n))
      case None => None
    else if rest[0] == '#' then
      match LexNumber(rest[1..])
      case Some(n) => Some(Nth(a, n))
      case None => None
    else if rest[0] == '-' then
      var stop := LexAtom(rest[1..]);
      if stop.None? then None else LexAfterRange(a, stop.value.0, stop.value.1)
    else None
  }

  /** The shape of one piece, or None when the piece is malformed. */
  function LexPiece(s: string): Option<Piece> {
    if |s| == 1 && s[0] == '*' then Some(Star)
    else if |s| >= 2 && s[0] == '*' && s[1] == '/' then
      match LexNumber(s[2..])
      case Some(n) => Some(StarStep(n))
      case None => None
    else if |s| == 1 && s[0] == '?' then Some(Question)
    else if |s| == 1 && IsL(s[0]) then Some(Last)
    else
      var atom := LexAtom(s);
      if atom.None? then None else LexAfterAtom(atom.value.0, atom.value.1)
  }

  // ----- printing, the inverse of lexing -----

  function ShowAtom(a: Atom): string {
    match a
    case Number(n) => ShowNat(n)
    case Name(s) => s
  }

  function ShowPiece(p: Piece): string {
    match p
    case Star => "*"
    case StarStep(n) => "*/" + ShowNat(n)
    case Question => "?"
    case Last => "L"
    case Single(a) => ShowAtom(a)
    case Stepped(a, n) => ShowAtom(a) + "/" + ShowNat(n)
    case Between(a, b) => ShowAtom(a) + "-" + ShowAtom(b)
    case BetweenStepped(a, b, n) => ShowAtom(a) + "-" + ShowAtom(b) + "/" + ShowNat(n)
    case WithLast(a) => ShowAtom(a) + "L"
    case WithWeekday(a) => ShowAtom(a) + "W"
    case Nth(a, n) => ShowAtom(a) + "#" + ShowNat(n)
  }

  /** Atoms the grammar can express. */
  predicate WritableAtom(a: Atom) {
    match a
    case Number(n) => n < 100
    case Name(s) => |s| == 3 && IsLetter(s[0]) && IsLetter(s[1]) && IsLetter(s[2])
  }

  predicate Writable(p: Piece) {
    match p
    case Single(a) => WritableAtom(a)
    case Stepped(a, _) => WritableAtom(a)
    case Between(a, b) => WritableAtom(a) && WritableAtom(b)
    case BetweenStepped(a, b, _) => WritableAtom(a) && WritableAtom(b)
    case WithLast(a) => WritableAtom(a)
    case WithWeekday(a) => WritableAtom(a)
    case Nth(a, _) => WritableAtom(a)
    case _ => true
  }

  lemma ShowAtomStartsWithAtom(a: Atom)
    requires WritableAtom(a)
    ensures ShowAtom(a) != [] && (IsDigit(ShowAtom(a)[0]) || IsLetter(ShowAtom(a)[0]))
    ensures ',' !in ShowAtom(a)
  {
    if a.Number? {
      var s := ShowNat(a.value);
      assert forall i :: 0 <= i < |s| ==> IsDigit(s[i]);
    } else {
      assert forall i :: 0 <= i < 3 ==> IsLetter(a.letters[i]);
    }
  }

  /** Lexing an atom that is followed by a non-digit gives the atom back. */
  lemma LexShowAtom(a: Atom, rest: string)
    requires WritableAtom(a)
    requires rest == [] || !IsDigit(rest[0])
    ensures LexAtom(ShowAtom(a) + rest) == Some((a, rest))
  {
    var s := ShowAtom(a) + rest;
    if a.Number? {
      var digits := ShowNat(a.value);
      DigitRunOfConcat(digits, rest);
      assert s[..|digits|] == digits;
      assert s[|digits|..] == rest;
    } else {
      assert s[..3] == a.letters;
      assert s[3..] == rest;
    }
  }

  lemma LexShowNumber(n: nat)
    ensures LexNumber(ShowNat(n)) == Some(n)
  {
  }

  /** A piece that starts with an atom is lexed by LexAfterAtom. */
  lemma LexAtomLed(a: Atom, rest: string)
    requires WritableAtom(a)
    requires rest == [] || !IsDigit(rest[0])
    ensures LexPiece(ShowAtom(a) + rest) == LexAfterAtom(a, rest)
  {
    var s := ShowAtom(a) + rest;
    ShowAtomStartsWithAtom(a);
    LexShowAtom(a, rest);
    assert s[0] == ShowAtom(a)[0];
    assert s[0] != '*' && s[0] != '?';
    assert |s| == 1 ==> a.Number? && IsDigit(s[0]);
  }

  // ----- where a `?` can stand -----

  lemma NoQuestionInDigits(t: string)
    requires AllDigits(t)
    ensures '?' !in t
  {
    assert forall i :: 0 <= i < |t| ==> IsDigit(t[i]);
  }

  lemma NoQuestionInParts(s: string, k: int)
    requires 0 <= k <= |s| && '?' !in s[..k] && '?' !in s[k..]
    ensures '?' !in s
  {
    assert s == s[..k] + s[k..];
  }

  /** An atom is made of digits or letters: what precedes the rest holds no `?`. */
  lemma AtomHasNoQuestion(s: string)
    requires LexAtom(s).Some?
    ensures var rest := LexAtom(s).value.1;
      |rest| <= |s| && rest == s[|s| - |rest|..] && '?' !in s[..|s| - |rest|]
  {
    if IsDigit(s[0]) {
      var n := DigitRun(s);
      NoQuestionInDigits(s[..n]);
    } else {
      assert forall i :: 0 <= i < 3 ==> IsLetter(s[..3][i]);
    }
  }

  lemma AfterRangeHasNoQuestion(a: Atom, b: Atom, rest: string)
    requires LexAfterRange(a, b, rest).Some?
    ensures '?' !in rest
  {
    if rest != [] {
      NoQuestionInDigits(rest[1..]);
      NoQuestionInParts(rest, 1);
    }
  }

  lemma AfterAtomHasNoQuestion(a: Atom, rest: string)
    requires LexAfterAtom(a, rest).Some?
    ensures '?' !in rest
  {
    if rest == [] || |rest| == 1 {
    } else if rest[0] == '/' || rest[0] == '#' {
      NoQuestionInDigits(rest[1..]);
      NoQuestionInParts(rest, 1);
    } else {
      var t := rest[1..];
      var stop := LexAtom(t).value;
      AtomHasNoQuestion(t);
      AfterRangeHasNoQuestion(a, stop.0, stop.1);
      NoQuestionInParts(t, |t| - |stop.1|);
      NoQuestionInParts(rest, 1);
    }
  }

  /** `?` is a piece only on its own: every other piece that lexes is free of `?`. */
  lemma QuestionOnlyAlone(s: string)
    requires LexPiece(s).Some? && '?' in s
    ensures s == "?" && LexPiece(s) == Some(Question)
  {
    if |s| == 1 {
      assert s == ['?'];
    } else if s[0] == '*' && s[1] == '/' {
      NoQuestionInDigits(s[2..]);
      NoQuestionInParts(s, 2);
    } else {
      var atom := LexAtom(s).value;
      AtomHasNoQuestion(s);
      AfterAtomHasNoQuestion(atom.0, atom.1);
      NoQuestionInParts(s, |s| - |atom.1|);
    }
  }

  /** Lexing undoes printing, for every piece the grammar can express. */
  lemma LexShowPiece(p: Piece)
    requires Writable(p)
    ensures LexPiece(ShowPiece(p)) == Some(p)
  {
    match p
    case Star =>
    case StarStep(n) => LexStarStep(n);
    case Question =>
    case Last =>
    case Single(a) => LexSingle(a);
    case Stepped(a, n) => LexStepped(a, n);
    case Between(a, b) => LexBetween(a, b);
    case BetweenStepped(a, b, n) => LexBetweenStepped(a, b, n);
    case WithLast(a) => LexAtomLed(a, "L");
    case WithWeekday(a) => LexAtomLed(a, "W");
    case Nth(a, n) => LexNth(a, n);
  }

  lemma LexStarStep(n: nat)
    ensures LexPiece(ShowPiece(StarStep(n))) == Some(StarStep(n))
  {
    var s := ShowPiece(StarStep(n));
    assert s[2..] == ShowNat(n);
  }

  lemma LexSingle(a: Atom)
    requires WritableAtom(a)
    ensures LexPiece(ShowPiece(Single(a))) == Some(Single(a))
  {
    LexAtomLed(a, []);
    assert ShowAtom(a) + [] == ShowAtom(a);
  }

  lemma LexStepped(a: Atom, n: nat)
    requires WritableAtom(a)
    ensures LexPiece(ShowPiece(Stepped(a, n))) == Some(Stepped(a, n))
  {
    var tail := "/" + ShowNat(n);
    assert ShowPiece(Stepped(a, n)) == ShowAtom(a) + tail;
    assert LexPiece(ShowAtom(a) + tail) == LexAfterAtom(a, tail) by {
      LexAtomLed(a, tail);
    }
    assert LexAfterAtom(a, tail) == Some(Stepped(a, n)) by {
      AfterAtomMarked(a, '/', ShowNat(n));
    }
  }

  lemma LexNth(a: Atom, n: nat)
    requires WritableAtom(a)
    ensures LexPiece(ShowPiece(Nth(a, n))) == Some(Nth(a, n))
  {
    var tail := "#" + ShowNat(n);
    assert ShowPiece(Nth(a, n)) == ShowAtom(a) + tail;
    assert LexPiece(ShowAtom(a) + tail) == LexAfterAtom(a, tail) by {
      LexAtomLed(a, tail);
    }
    assert LexAfterAtom(a, tail) == Some(Nth(a, n)) by {
      AfterAtomMarked(a, '#', ShowNat(n));
    }
  }

  /** An atom followed by `/` or `#` and a number. */
  lemma AfterAtomMarked(a: Atom, mark: char, digits: string)
    requires mark == '/' || mark == '#'
    requires digits != []
    ensures var r := LexAfterAtom(a, [mark] + digits);
      (LexNumber(digits).None? ==> r.None?) &&
      (LexNumber(digits).Some? && mark == '/' ==> r == Some(Stepped(a, LexNumber(digits).value))) &&
      (LexNumber(digits).Some? && mark == '#' ==> r == Some(Nth(a, LexNumber(digits).value)))
  {
    var rest := [mark] + digits;
    assert rest[0] == mark && |rest| >= 2;
    assert rest[1..] == digits;
  }

  lemma AfterAtomDashStep(a: Atom, tail: string)
    requires |tail| >= 2 && tail[0] == '-'
    ensures LexAfterAtom(a, tail) ==
      if LexAtom(tail[1..]).None? then None
      else LexAfterRange(a, LexAtom(tail[1..]).value.0, LexAtom(tail[1..]).value.1)
  {
  }

  /** An atom followed by `-` and a second atom. */
  lemma AfterAtomDash(a: Atom, b: Atom, rest: string)
    requires WritableAtom(b)
    requires rest == [] || !IsDigit(rest[0])
    ensures LexAfterAtom(a, "-" + ShowAtom(b) + rest) == LexAfterRange(a, b, rest)
  {
    var after := ShowAtom(b) + rest;
    var tail := "-" + ShowAtom(b) + rest;
    assert tail == ['-'] + after;
    assert |after| > 0 by { ShowAtomStartsWithAtom(b); }
    assert tail[0] == '-' && tail[1..] == after;
    assert LexAtom(after) == Some((b, rest)) by { LexShowAtom(b, rest); }
    AfterAtomDashStep(a, tail);
  }

  lemma LexBetween(a: Atom, b: Atom)
    requires WritableAtom(a) && WritableAtom(b)
    ensures LexPiece(ShowPiece(Between(a, b))) == Some(Between(a, b))
  {
    var tail := "-" + ShowAtom(b) + [];
    LexAtomLed(a, tail);
    AfterAtomDash(a, b, []);
    assert ShowPiece(Between(a, b)) == ShowAtom(a) + tail;
  }

  lemma LexBetweenStepped(a: Atom, b: Atom, n: nat)
    requires WritableAtom(a) && WritableAtom(b)
    ensures LexPiece(ShowPiece(BetweenStepped(a, b, n))) == Some(BetweenStepped(a, b, n))
  {
    var step := "/" + ShowNat(n);
    var tail := "-" + ShowAtom(b) + step;
    assert ShowPiece(BetweenStepped(a, b, n)) == ShowAtom(a) + tail;
    assert LexPiece(ShowAtom(a) + tail) == LexAfterAtom(a, tail) by {
      LexAtomLed(a, tail);
    }
    assert LexAfterAtom(a, tail) == LexAfterRange(a, b, step) by {
      AfterAtomDash(a, b, step);
    }
    assert LexAfterRange(a, b, step) == Some(BetweenStepped(a, b, n)) by {
      LexStepOfRange(a, b, n);
    }
  }

  lemma LexStepOfRange(a: Atom, b: Atom, n: nat)
    ensures LexAfterRange(a, b, "/" + ShowNat(n)) == Some(BetweenStepped(a, b, n))
  {
    var step := "/" + ShowNat(n);
    assert step[1..] == ShowNat(n);
  }

  /** Printed pieces never contain the list separator. */
  lemma ShowPieceHasNoComma(p: Piece)
    requires Writable(p)
    ensures ',' !in ShowPiece(p)
  {
    match p
    case Single(a) => ShowAtomStartsWithAtom(a);
    case Stepped(a, n) => ShowAtomStartsWithAtom(a); NumeralHasNoComma(n);
    case Between(a, b) => ShowAtomStartsWithAtom(a); ShowAtomStartsWithAtom(b);
    case BetweenStepped(a, b, n) => ShowAtomStartsWithAtom(a); ShowAtomStartsWithAtom(b); NumeralHasNoComma(n);
    case WithLast(a) => ShowAtomStartsWithAtom(a);
    case WithWeekday(a) => ShowAtomStartsWithAtom(a);
    case Nth(a, n) => ShowAtomStartsWithAtom(a); NumeralHasNoComma(n);
    case StarStep(n) => NumeralHasNoComma(n);
    case _ =>
  }

  lemma NumeralHasNoComma(n: nat)
    ensures ',' !in ShowNat(n)
  {
    var s := ShowNat(n);
    assert forall i :: 0 <= i < |s| ==> IsDigit(s[i]);
  }
  /** A printed piece is one word of the expression text. */
  lemma ShowPieceIsWord(p: Piece)
    requires Writable(p)
    ensures IsWord(ShowPiece(p))
  {
    assert IsWord("-") && IsWord("/") && IsWord("L") && IsWord("W") && IsWord("#") && IsWord("*/");
    match p
    case Single(a) => AtomIsWord(a);
    case Stepped(a, n) => AtomIsWord(a); NumeralIsWord(n); WordsConcat(ShowAtom(a), "/", ShowNat(n));
    case Between(a, b) => AtomIsWord(a); AtomIsWord(b); WordsConcat(ShowAtom(a), "-", ShowAtom(b));
    case BetweenStepped(a, b, n) =>
      AtomIsWord(a); AtomIsWord(b); NumeralIsWord(n);
      WordsConcat(ShowAtom(a), "-", ShowAtom(b));
      WordsConcat(ShowAtom(a) + "-" + ShowAtom(b), "/", ShowNat(n));
    case WithLast(a) => AtomIsWord(a); WordConcat(ShowAtom(a), "L");
    case WithWeekday(a) => AtomIsWord(a); WordConcat(ShowAtom(a), "W");
    case Nth(a, n) => AtomIsWord(a); NumeralIsWord(n); WordsConcat(ShowAtom(a), "#", ShowNat(n));
    case StarStep(n) => NumeralIsWord(n); WordConcat("*/", ShowNat(n));
    case _ =>
  }

  lemma WordsConcat(a: string, b: string, c: string)
    requires IsWord(a) && IsWord(b) && IsWord(c)
    ensures IsWord(a + b + c)
  {
    WordConcat(a, b);
    WordConcat(a + b, c);
  }

  lemma AtomIsWord(a: Atom)
    requires WritableAtom(a)
    ensures IsWord(ShowAtom(a))
  {
    if a.Number? {
      NumeralIsWord(a.value);
    } else {
      assert forall i :: 0 <= i < 3 ==> IsLetter(a.letters[i]);
    }
  }

  lemma NumeralIsWord(n: nat)
    ensures IsWord(ShowNat(n))
  {
    var s := ShowNat(n);
    assert forall i :: 0 <= i < |s| ==> IsDigit(s[i]);
  }
}
