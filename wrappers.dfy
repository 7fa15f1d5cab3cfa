/** Optional values, results and outcomes shared by every module. */
module Wrappers {

  /** A value that may be absent (Java's nullable references). */
  datatype Option<+T> = None | Some(value: T)

  /** A computation that yields a value or raises an error. */
  datatype Result<+T, +E> = Ok(value: T) | Err(error: E)
  {
    predicate IsFailure() { Err? }
    function PropagateFailure<U>(): Result<U, E> requires Err? { Err(error) }
    function Extract(): T requires Ok? { value }
  }

  /** A computation that yields nothing or raises an error (a Java `void` method that may throw). */
  datatype Outcome<+E> = Pass | Fail(error: E)
  {
    predicate IsFailure() { Fail? }
    function PropagateFailure(): Outcome<E> requires Fail? { this }
  }
}
