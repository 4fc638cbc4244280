/** Failure-compatible wrappers used throughout the model. `Option` stands for
    JavaScript's `undefined` (None) next to a present value; `Result` stands for a
    computation that may throw (a `TypeError` on a nullish member access). */
module Wrappers {

  datatype Option<+T> = None | Some(value: T) {

    /** The value, or `default` when absent (JavaScript's `??` on `undefined`). */
    function GetOr(default: T): (r: T)
      ensures Some? ==> r == value
      ensures None? ==> r == default
    {
      match this
      case Some(v) => v
      case None => default
    }
  }

  datatype Result<+R, +E> = Success(value: R) | Failure(error: E)
}
