/** Option and Result: the shapes the model uses for Python's None and for
    the exceptions the services raise. */
module Wrappers {

  /** Python's None (None) or a present value (Some). */
  datatype Option<+T> = None | Some(value: T) {
    /** `x if x is not None else default` */
    function GetOr(default: T): T {
      match this
      case Some(v) => v
      case None => default
    }
  }

  /** A successful return value, or the exception an operation raises. */
  datatype Result<+R, +E> = Success(value: R) | Failure(error: E)
}
