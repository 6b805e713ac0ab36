/** Outcomes of the guarded operations of the vehicle model.

    The vehicle classes signal failure with three checked exceptions
    (invalid operation, insufficient fuel, overload); the record factory can
    additionally fail on a numeric field that does not parse. Here every such
    exception becomes an `Error` value carried by a `Result`, and "the
    receiver is unchanged on failure" becomes "the operation returns no new
    receiver". */
module Errors {

  datatype Error =
    | InvalidOperation  // bad argument, unknown or duplicate id, unsupported action
    | InsufficientFuel  // a move or a consumption needs more fuel than is on board
    | Overload          // boarding or loading beyond the fixed capacity
    | NumberFormat      // a numeric record field that does not parse

  /** The value produced by a successful operation, or the error it raised. */
  datatype Result<+T> = Success(value: T) | Failure(error: Error) {

    predicate IsFailure() {
      Failure?
    }

    function PropagateFailure<U>(): Result<U>
      requires Failure?
    {
      Failure(error)
    }

    function Extract(): T
      requires Success?
    {
      value
    }
  }

  /** The completion of an operation that has no value of its own. */
  datatype Outcome = Pass | Fail(error: Error)

  /** A value that may be absent (Java's null). */
  datatype Option<+T> = None | Some(value: T)
}
