/** Failure-compatible wrappers shared by the whole model. */
module Wrappers {

  /** A value that may be missing: JavaScript's `undefined`/`null` or an absent key. */
  datatype Option<+T> = None | Some(value: T) {

    /** Returns the wrapped value, or `default` when there is none. */
    function GetOr(default: T): T {
      match this
      case Some(v) => v
      case None => default
    }
  }

  /** The outcome of an operation that either returns a value or throws an error. */
  datatype Result<+R, +E> = Success(value: R) | Failure(error: E)

  /** Collapses "absent" and "present but undefined" into one undefined value. */
  function Flatten<T>(o: Option<Option<T>>): (r: Option<T>)
    ensures r.Some? <==> o.Some? && o.value.Some?
    ensures r.Some? ==> r.value == o.value.value
  {
    match o
    case Some(inner) => inner
    case None => None
  }
}
