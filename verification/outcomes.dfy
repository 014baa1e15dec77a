/** Outcome of an operation that the crate would abort with a failed
    assertion, an `unwrap` on `None`, or an out-of-range index. */
module Outcomes {
  datatype Result<T> = Success(value: T) | Failure(error: string)
  {
    predicate IsFailure() { Failure? }

    function PropagateFailure<U>(): Result<U>
      requires Failure?
    {
      Failure(error)
    }

    function Extract(): T
      requires Success?
    {
      value
    }
  }
}
