/** Failure-compatible wrappers and the precondition checks the source relies on. */
module Wrappers {

  datatype Option<+T> = None | Some(value: T)

  datatype Result<+R, +E> = Success(value: R) | Failure(error: E)

  datatype Outcome<+E> = Pass | Fail(error: E)

  /** The unchecked exceptions thrown by Guava's precondition checks. */
  datatype Violation = IllegalState | IllegalArgument

  /** `Preconditions.checkState`: fails with IllegalState exactly when the condition is false. */
  function CheckState(condition: bool): (r: Outcome<Violation>)
    ensures r.Pass? <==> condition
    ensures r.Fail? ==> r.error == IllegalState
  {
    if condition then Pass else Fail(IllegalState)
  }

  /** `Preconditions.checkArgument`: fails with IllegalArgument exactly when the condition is false. */
  function CheckArgument(condition: bool): (r: Outcome<Violation>)
    ensures r.Pass? <==> condition
    ensures r.Fail? ==> r.error == IllegalArgument
  {
    if condition then Pass else Fail(IllegalArgument)
  }
}
