/** Errors of the cron engine and the result type that carries them. */
module Results {

  datatype CronError =
    | NullExpression                              // the expression text is absent
    | FieldCountMismatch(expected: nat, found: nat) // wrong number of whitespace-separated fields
    | MalformedField                              // a token that does not follow the field grammar
    | OutOfRange                                  // a value outside the range of its field
    | ReversedRange                               // N-M with M < N
    | InvalidModifier                             // L, W or # where the field does not accept it
    | IgnoreMisuse                                // ? outside the day fields, or not on its own
    | NoSatisfyingTime                            // the search passed its barrier

  datatype Option<+T> = None | Some(value: T)

  datatype Result<+T> = Ok(value: T) | Err(error: CronError) {
    predicate IsFailure() {
      Err?
    }

    function PropagateFailure<U>(): Result<U>
      requires Err?
    {
      Err(error)
    }

    function Extract(): T
      requires Ok?
    {
      value
    }
  }

  /** Element `i` is the first one `f` fails on. */
  predicate FirstError<A, B>(xs: seq<A>, f: A -> Result<B>, i: int)
    requires 0 <= i < |xs|
  {
    f(xs[i]).Err? && forall j :: 0 <= j < i ==> f(xs[j]).Ok?
  }

  /** Applies `f` to every element and stops at the first error. */
  function MapResult<A, B>(xs: seq<A>, f: A -> Result<B>): (r: Result<seq<B>>)
    ensures r.Ok? <==> forall i :: 0 <= i < |xs| ==> f(xs[i]).Ok?
    ensures r.Ok? ==> |r.value| == |xs| && forall i :: 0 <= i < |xs| ==> r.value[i] == f(xs[i]).value
    ensures r.Err? ==> exists i :: 0 <= i < |xs| && FirstError(xs, f, i) && f(xs[i]).error == r.error
  {
    if xs == [] then Ok([])
    else
      var head :- f(xs[0]);
      var tail := MapResult(xs[1..], f);
      if tail.Err? then
        var k :| 0 <= k < |xs| - 1 && FirstError(xs[1..], f, k) && f(xs[1..][k]).error == tail.error;
        assert FirstError(xs, f, k + 1);
        Err(tail.error)
      else
        Ok([head] + tail.value)
  }
}
