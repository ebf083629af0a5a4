/** Option and Result, the two failure-carrying shapes the model needs:
    `Option` stands for a Go pointer or nil-able value, `Result` for a
    `(value, error)` pair where exactly one side is meaningful. */
module Wrappers {

  datatype Option<+T> = None | Some(value: T) {

    /** The wrapped value, or `default` when there is none. */
    function GetOr(default: T): T {
      match this
      case Some(v) => v
      case None => default
    }
  }

  datatype Result<+R, +E> = Success(value: R) | Failure(error: E)
}
