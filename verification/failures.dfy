/** Failure-compatible wrappers and the Java exceptions the identity-provider code can raise. */
module Failures {

  /** A nullable reference: `None` stands for Java's `null`. */
  datatype Option<+T> = None | Some(value: T)

  /** Either a returned value or a raised exception; usable with `:-`. */
  datatype Result<+T, +E> = Success(value: T) | Failure(error: E) {

    predicate IsFailure() {
      Failure?
    }

    function PropagateFailure<U>(): Result<U, E>
      requires Failure?
    {
      Failure(error)
    }

    function Extract(): T
      requires Success?
    {
      value
    }
  }

  /** The exceptions thrown by IdentityProvider and by the resource bundle it reads. */
  datatype Exception =
    | IllegalArgument(message: string)   // a provider definition lacks a required resource id
    | IllegalState(message: string)      // a getter was called before the configuration was read
    | NotFound(id: int)                  // the resource bundle has no value of the wanted kind for `id`
}
