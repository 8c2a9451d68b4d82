/** Failure-compatible wrappers: `Option` stands for a Java nullable / `Optional`,
    `Result` for a value-or-exception outcome. */
module Wrappers {

  datatype Option<+T> = None | Some(value: T) {
    predicate IsFailure() { None? }

    function PropagateFailure<U>(): Option<U>
      requires None?
    {
      None
    }

    function Extract(): T
      requires Some?
    {
      value
    }
  }

  datatype Result<+R, +E> = Ok(value: R) | Err(error: E) {
    predicate IsFailure() { Err? }

    function PropagateFailure<U>(): Result<U, E>
      requires Err?
    {
      Err(error)
    }

    function Extract(): R
      requires Ok?
    {
      value
    }
  }

  /** The exceptions of the Java code that the model surfaces as error values. */
  datatype Exception =
    | IllegalArgument(message: string)
    | IllegalState(message: string)
    | NullPointer(message: string)
}
