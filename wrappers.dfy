/** Option and Result values for the scanner's "no value" and error outcomes. */
module Wrappers {

  datatype Option<+T> = None | Some(value: T) {
    /** The carried value, or `default` when there is none (Python's dict.get(key, default)). */
    function GetOr(default: T): T
    {
      match this
      case Some(v) => v
      case None => default
    }
  }

  /** The value as a list of at most one element. */
  function OptionToSeq<T>(o: Option<T>): (s: seq<T>)
    ensures |s| <= 1
    ensures o.None? <==> s == []
    ensures o.Some? ==> s == [o.value]
  {
    match o
    case None => []
    case Some(v) => [v]
  }

  /** A computation that either produces a value or raises an error carrying `error`. */
  datatype Result<+T, +E> = Success(value: T) | Failure(error: E)
}
