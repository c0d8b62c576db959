/** Option and Result values standing in for Python's `None` and for the
    error paths (404s, rollbacks, ValueErrors) of the modelled code. */
module Wrappers {

  /** A value that may be missing, like a nullable column or form field. */
  datatype Option<+T> = None | Some(value: T) {

    /** The value, or `default` when missing. */
    function GetOr(default: T): T {
      match this
      case Some(v) => v
      case None => default
    }
  }

  /** Either a value or an error. */
  datatype Result<+R, +E> = Success(value: R) | Failure(error: E)

  /** Python's `x or 0` on a nullable integer column: a missing amount counts as zero. */
  function OrZero(x: Option<int>): int {
    x.GetOr(0)
  }
}
