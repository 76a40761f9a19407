/** Optional values and operation outcomes shared by every module. */
module Wrappers {

  /** A value that may be absent (an optional argument, `undefined`, `null`). */
  datatype Option<+T> = None | Some(value: T)

  /** Why a backend operation failed. */
  datatype Failure =
    /** The handler threw `new Error(message)`. */
    | Thrown(message: string)
    /** The document store refused to patch or delete an id that names no document. */
    | MissingDocument

  /** The outcome of an operation that returns a value or fails. */
  datatype Result<+T> = Ok(value: T) | Err(failure: Failure)

  function OptionOr<T>(o: Option<T>, default: T): (r: T)
    ensures o.Some? ==> r == o.value
    ensures o.None? ==> r == default
  {
    match o
    case Some(v) => v
    case None => default
  }
}
