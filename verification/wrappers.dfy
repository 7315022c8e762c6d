/** Option and Result datatypes used for the error paths of the model. */
module Wrappers {

  /** A value that may be absent: a JavaScript property that is `undefined` or `null`. */
  datatype Option<+T> = None | Some(value: T) {

    /** The encapsulated value, or `default` when absent. */
    function GetOr(default: T): T {
      match this
      case Some(v) => v
      case None => default
    }
  }

  /** Either a computed value or the reason it could not be computed. */
  datatype Result<+R, +E> = Success(value: R) | Failure(error: E)
}
