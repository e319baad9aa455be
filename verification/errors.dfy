/** The three exception classes of the library, and a failure-compatible
    result type that carries one of them. Throwing an exception is modelled as
    returning `Err`; every operation is all-or-nothing. */
module JsonErrors {

  /** `ParseError` for malformed text (with the message the library throws),
      `TypeError` for an access on a value of the wrong type and `RangeError`
      for a missing member or an index past the end. */
  datatype Error =
    | ParseError(message: string)
    | TypeError(message: string)
    | RangeError(message: string)

  /** The message every read-only accessor throws on a tag mismatch. */
  const WrongType: Error := TypeError("Wrong type")

  datatype Result<+T> = Ok(value: T) | Err(error: Error) {

    predicate IsFailure() {
      Err?
    }

    function PropagateFailure<U>(): Result<U>
      requires Err?
    {
      Err(error)
    }

    function Extract(): T
      requires Ok?
    {
      value
    }
  }
}
