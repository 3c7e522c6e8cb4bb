/** The outcome of a computation of the converter: its value, or the
    IndexOutOfBoundsException (from String.charAt, String.substring, an array
    index or ArrayList.get) that the Java code lets escape. */
module Wrappers {

  datatype Result<+T> = Ok(value: T) | OutOfBounds {

    predicate IsFailure() {
      OutOfBounds?
    }

    function PropagateFailure<U>(): Result<U>
      requires OutOfBounds?
    {
      OutOfBounds
    }

    function Extract(): T
      requires Ok?
    {
      value
    }
  }
}
