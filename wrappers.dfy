/** Optional values, results with an error message, and the three-way
    "absent / explicit null / present" field of a JSON payload. */
module Wrappers {

  datatype Option<+T> = None | Some(value: T) {
    function GetOr(default: T): T {
      match this
      case Some(v) => v
      case None => default
    }
  }

  /** The outcome of an operation that the source lets throw an Error:
      Failure carries the error's message. */
  datatype Result<+T> = Success(value: T) | Failure(error: string) {
    predicate IsFailure() {
      Failure?
    }

    function PropagateFailure<U>(): Result<U>
      requires Failure?
    {
      Failure(error)
    }

    function Extract(): T
      requires Success?
    {
      value
    }
  }

  /** A key of a JSON object that may be missing, hold null, or hold a value. */
  datatype Field<+T> = Absent | Null | Present(value: T)
}
