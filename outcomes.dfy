/** Failure-compatible wrappers standing in for Java's `null` returns and exceptions. */
module Outcomes {

  /** A parser level's answer: a tree, or `None` where the Java code returns `null`. */
  datatype Option<+T> = None | Some(value: T)

  /** A value, or the exception the Java method would throw instead. */
  datatype Result<+T, +E> = Ok(value: T) | Err(error: E) {

    predicate IsFailure() {
      Err?
    }

    function PropagateFailure<U>(): Result<U, E>
      requires Err?
    {
      Err(error)
    }

    function Extract(): T
      requires Ok?
    {
      value
    }
  }
}
