/** Option and Result types shared by the model: `Option` stands for
    `java.util.Optional` (and for a nullable reference), `Result` for a
    computation that may throw. */
module Wrappers {

  datatype Option<+T> = None | Some(value: T)

  datatype Result<+T, +E> = Success(value: T) | Failure(error: E) {

    predicate IsFailure() {
      Failure?
    }

    function PropagateFailure<U>(): Result<U, E>
      requires Failure?
    {
      Failure(error)
    }

    function Extract(): T
      requires Success?
    {
      value
    }
  }

  /** The one exception kind this core raises itself: `Enum.valueOf` on a
      name that is not a member throws `IllegalArgumentException`. */
  datatype Error = IllegalArgument(name: string)
}
