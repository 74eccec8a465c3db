/** Outcomes of compilation: a value, or the reason the source raises a profile error. */
module Results {
  datatype Reason = LevelTooLow | NotHorn | OverBudget

  datatype Result<+T> = Ok(value: T) | Err(reason: Reason)
  {
    predicate IsFailure() { Err? }
    function PropagateFailure<U>(): Result<U> requires Err? { Err(reason) }
    function Extract(): T requires Ok? { value }
  }
}
