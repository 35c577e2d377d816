/** The six positions of a cron expression, their value ranges and name aliases. */
module FieldKinds {
  import opened Results

  datatype FieldKind = Second | Minute | Hour | DayOfMonth | Month | DayOfWeek

  /** Smallest value of the field. */
  function From(kind: FieldKind): int {
    match kind
    case Second => 0
    case Minute => 0
    case Hour => 0
    case DayOfMonth => 1
    case Month => 1
    case DayOfWeek => 1
  }

  /** Largest value of the field. */
  function To(kind: FieldKind): int {
    match kind
    case Second => 59
    case Minute => 59
    case Hour => 23
    case DayOfMonth => 31
    case Month => 12
    case DayOfWeek => 7
  }

  /** Upper-case three-letter aliases; alias i stands for value i + 1. */
  function Names(kind: FieldKind): seq<string> {
    match kind
    case Month => ["JAN", "FEB", "MAR", "APR", "MAY", "JUN", "JUL", "AUG", "SEP", "OCT", "NOV", "DEC"]
    case DayOfWeek => ["MON", "TUE", "WED", "THU", "FRI", "SAT", "SUN"]
    case _ => []
  }

  function UpperChar(c: char): char {
    if 'a' <= c <= 'z' then (c as int - 32) as char else c
  }

  function Upper(s: string): (r: string)
    ensures |r| == |s|
    ensures forall i :: 0 <= i < |s| ==> r[i] == UpperChar(s[i])
  {
    if s == [] then [] else [UpperChar(s[0])] + Upper(s[1..])
  }

  function IndexOf(names: seq<string>, name: string): (r: Option<nat>)
    ensures r.Some? ==> r.value < |names| && names[r.value] == name
    ensures r.None? ==> name !in names
    ensures r.Some? ==> forall j :: 0 <= j < r.value ==> names[j] != name
  {
    if names == [] then None
    else if names[0] == name then Some(0)
    else match IndexOf(names[1..], name)
      case None => None
      case Some(i) => Some(i + 1)
  }

  /** The value a name stands for in this field, ignoring case. */
  function NameValue(kind: FieldKind, name: string): (r: Option<int>)
    ensures r.Some? ==> From(kind) <= r.value <= To(kind)
    ensures r.Some? <==> Upper(name) in Names(kind)
    ensures r.Some? ==> Names(kind)[r.value - 1] == Upper(name)
  {
    match IndexOf(Names(kind), Upper(name))
    case None => None
    case Some(i) => Some(i + 1)
  }

  /** No name is listed twice. */
  lemma NamesDistinct(kind: FieldKind, i: int, j: int)
    requires 0 <= j < i < |Names(kind)|
    ensures Names(kind)[j] != Names(kind)[i]
  {
  }

  /** The listed names are already upper case. */
  lemma NamesUpper(kind: FieldKind, i: int)
    requires 0 <= i < |Names(kind)|
    ensures Upper(Names(kind)[i]) == Names(kind)[i]
  {
  }

  /** In a list whose i-th entry differs from all earlier ones, the search
      finds position i exactly for that entry. */
  lemma IndexOfFirst(names: seq<string>, x: string, i: int)
    requires 0 <= i < |names| && forall j :: 0 <= j < i ==> names[j] != names[i]
    ensures IndexOf(names, x) == Some(i) <==> x == names[i]
  {
    if x == names[i] {
      var r := IndexOf(names, x);
      assert r.Some?;
      assert r.value >= i;
    }
  }

  /** A name stands for value i + 1 exactly when, upper-cased, it is the i-th
      listed name: `MAR` and `mar` are 3, `SUN` is 7. */
  lemma NameValueIff(kind: FieldKind, s: string, i: int)
    requires 0 <= i < |Names(kind)|
    ensures NameValue(kind, s) == Some(i + 1) <==> Upper(s) == Names(kind)[i]
  {
    var names := Names(kind);
    forall j | 0 <= j < i
      ensures names[j] != names[i]
    {
      NamesDistinct(kind, i, j);
    }
    IndexOfFirst(names, Upper(s), i);
  }

  lemma UpperIdempotent(s: string)
    ensures Upper(Upper(s)) == Upper(s)
  {
    forall k | 0 <= k < |s|
      ensures Upper(Upper(s))[k] == Upper(s)[k]
    {
    }
  }

  /** Upper-casing a name does not change what it stands for. */
  lemma NameValueIgnoresCase(kind: FieldKind, s: string)
    ensures NameValue(kind, Upper(s)) == NameValue(kind, s)
  {
    UpperIdempotent(s);
  }

  /** Only the month and weekday fields have names. */
  lemma NumberFieldsHaveNoNames(kind: FieldKind, s: string)
    requires kind != Month && kind != DayOfWeek
    ensures NameValue(kind, s) == None
  {
  }
}
