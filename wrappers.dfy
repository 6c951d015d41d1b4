/** Optional values: `None` stands for a JavaScript `undefined` (a key absent from the record). */
module Wrappers {

  datatype Option<+T> = None | Some(value: T) {

    /** The value, or `default` when absent. */
    function GetOr(default: T): T {
      match this
      case Some(v) => v
      case None => default
    }

    /** Applies `f` to a present value; an absent value stays absent. */
    function Map<U>(f: T -> U): Option<U> {
      match this
      case Some(v) => Some(f(v))
      case None => None
    }
  }

  /** The outcome of an operation that either yields a value or reports `error`. */
  datatype Result<+T, +E> = Ok(value: T) | Err(error: E)
}
