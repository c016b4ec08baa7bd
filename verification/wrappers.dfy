/** `Option` stands for a nullable reference and `Result` for an operation
    that either returns or throws. */
module Wrappers {

  datatype Option<+T> = None | Some(value: T) {

    /** Lets `:-` stop a reader at the first `None`. */
    predicate IsFailure() {
      None?
    }

    function PropagateFailure<U>(): Option<U>
      requires None?
    {
      None
    }

    function Extract(): T
      requires Some?
    {
      value
    }

    /** The value, or `default` for `null` (the source's `??`). */
    function GetOr(default: T): T {
      match this
      case Some(v) => v
      case None => default
    }
  }

  datatype Result<+R, +E> = Success(value: R) | Failure(error: E)
}
