/** The two failure-carrying shapes used throughout the model: an optional
    value (a JavaScript field that may be undefined) and a success/failure
    result (a promise that resolves or rejects). */
module Wrappers {

  datatype Option<+T> = None | Some(value: T) {

    /** The value held, or `default` when there is none */
    function GetOr(default: T): T {
      match this
      case Some(v) => v
      case None => default
    }
  }

  datatype Result<+R, +E> = Success(value: R) | Failure(error: E)
}
