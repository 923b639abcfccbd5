/** Failure-compatible wrappers: an optional value (a nullable reference) and
    a result that is either a value or the exception the operation throws. */
module Wrappers {

  /** A value that may be absent, as a nullable C# reference is. */
  datatype Option<+T> = None | Some(value: T)

  /** The outcome of an operation that either returns a value or throws. */
  datatype Result<+R, +E> = Success(value: R) | Failure(error: E) {

    predicate IsFailure() {
      Failure?
    }

    function PropagateFailure<U>(): Result<U, E>
      requires Failure?
    {
      Failure(error)
    }

    function Extract(): R
      requires Success?
    {
      value
    }
  }
}

/** The exceptions the route operations can raise. */
module Exceptions {

  datatype Exception =
    | ArgumentOutOfRange          // an index or range outside the array
    | NullReference               // a member access through a null `Data`
    | NotSupported(message: string)
}
