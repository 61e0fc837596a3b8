/** Option and Result, used for JavaScript's `undefined` and for construction errors. */
module Wrappers {

  /** `None` stands for a JavaScript value that is `undefined` (a missing key, an absent argument). */
  datatype Option<+T> = None | Some(value: T) {

    /** The value, or `default` when absent (a JavaScript default parameter). */
    function GetOr(default: T): T {
      match this
      case Some(v) => v
      case None => default
    }
  }

  /** The outcome of an operation that may throw at construction time. */
  datatype Result<+T, +E> = Success(value: T) | Failure(error: E)
}
