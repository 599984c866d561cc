/** Failure-compatible wrappers used throughout the model: an optional value
    (Swift's `T?`) and a value-or-error result (a Swift `throws` function). */
module Wrappers {

  /** Swift's `Optional`: `nil` is `Nil`. */
  datatype Option<+T> = Nil | Some(value: T)

  /** The outcome of a throwing call. Usable with `:-`, so a failure returns
      early exactly like Swift's `try`. */
  datatype Result<+T, +E> = Success(value: T) | Failure(error: E) {

    predicate IsFailure() {
      Failure?
    }

    function PropagateFailure<U>(): Result<U, E>
      requires Failure?
    {
      Failure(error)
    }

    function Extract(): T
      requires Success?
    {
      value
    }
  }
}
