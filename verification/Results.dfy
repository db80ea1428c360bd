/** Failure-compatible wrappers shared by the formatters.

    The formatters are Python code that raises an exception on malformed
    input; the model returns `Failure(e)` instead, where `e` names the kind of
    exception the first failing expression would raise. */
module Results {

  /** A value that may be absent: a JSON `null`, or a dictionary key that is missing. */
  datatype Option<+T> = None | Some(value: T)

  /** The Python exceptions the modelled functions can raise. */
  datatype Exception =
    | KeyError(key: string)   // a dictionary subscript with a missing key
    | IndexError              // a list subscript past the end of the list
    | TypeError               // len() of a number, a number compared with a list, or a subscript of None
    | ValueError              // max() of an empty sequence
    | ZeroDivisionError       // a division by the length of an empty list

  /** Either the value a call returns or the exception it raises. */
  datatype Result<+T> = Success(value: T) | Failure(error: Exception) {

    predicate IsFailure() {
      Failure?
    }

    function PropagateFailure<U>(): Result<U>
      requires Failure?
    {
      Failure(error)
    }

    function Extract(): T
      requires Success?
    {
      value
    }
  }

  /** A dictionary lookup of an optional entry: its value, or a KeyError naming the key. */
  function Lookup<T>(o: Option<T>, key: string): (r: Result<T>)
    ensures r.Success? <==> o.Some?
    ensures o.Some? ==> r.value == o.value
    ensures o.None? ==> r.error == KeyError(key)
  {
    if o.Some? then Success(o.value) else Failure(KeyError(key))
  }
}
