/**
 * Failure-carrying datatypes used by the Hudson model.
 * `Option` stands for an array cell that may still hold NaN; `Result` for a
 * call that either returns its arrays or raises.
 */
module Results {

  /** A value that may be absent (a cell not yet assigned). */
  datatype Option<+T> = None | Some(value: T)

  /** The outcome of a call that may raise instead of returning. */
  datatype Result<+T, +E> = Success(value: T) | Failure(error: E)
}
