/** Failure-compatible results: the driver's exceptions and negative return codes. */
module Wrappers {

  // Why a picture or a call is refused.
  datatype Error = Invalid | Unsupported | Unavailable | NoSpace | NotFound | Already | Busy | Overflow

  datatype Option<+T> = None | Some(value: T)

  /** The outcome of an operation that returns no value. */
  datatype Outcome = Pass | Fail(error: Error) {
    predicate IsFailure() {
      Fail?
    }

    function PropagateFailure(): Outcome
      requires Fail?
    {
      this
    }
  }

  /** The outcome of an operation that returns a value. */
  datatype Result<+T> = Success(value: T) | Failure(error: Error) {
    predicate IsFailure() {
      Failure?
    }

    function PropagateFailure<U>(): Result<U>
      requires Failure?
    {
      Failure(error)
    }

    function Extract(): T
      requires Success?
    {
      value
    }
  }

  /** An outcome to be propagated by an operation that returns a value. */
  datatype Requirement = Met | Unmet(error: Error) {
    predicate IsFailure() {
      Unmet?
    }

    function PropagateFailure<U>(): Result<U>
      requires Unmet?
    {
      Failure(error)
    }
  }

  // Throw unless the condition holds: Check where no value is returned, Need where one is.
  function Check(condition: bool, error: Error): Outcome {
    if condition then Pass else Fail(error)
  }

  function Need(condition: bool, error: Error): Requirement {
    if condition then Met else Unmet(error)
  }
}
