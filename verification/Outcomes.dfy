/** Results of operations that may fail. */
module Outcomes {

  datatype Option<+T> = None | Some(value: T)

  /** A computed value, or the exception a Python tool raises. */
  datatype Outcome<+T> = Value(value: T) | Raised(error: Fault) {
    predicate IsFailure() { Raised? }

    function PropagateFailure<U>(): Outcome<U>
      requires Raised?
    {
      Raised(error)
    }

    function Extract(): T
      requires Value?
    {
      value
    }
  }

  datatype Fault = NegativeShift | DivisionByZero | TextTooLong | NotAscii | TooSmall | BadMagic
                 | SizeMismatch | ReadPastEnd | BadHeaderLength
}
