/** Failure-compatible result and option types shared by every module of the model.
    Each Java exception the engine can raise becomes one `Error` case. */
module Results {

  /** The failures the modelled code reports, one per exception kind. */
  datatype Error =
    | BufferUnderflow            // java.nio.BufferUnderflowException
    | BufferOverflow             // java.nio.BufferOverflowException
    | IndexOutOfBounds           // IndexOutOfBoundsException on an absolute index or a slot
    | NegativeSize(size: int)    // a length or count prefix below -1
    | DuplicateField(name: string) // IllegalArgumentException from the Schema constructor

  datatype Result<+T> = Ok(value: T) | Err(error: Error) {

    predicate IsFailure() {
      Err?
    }

    function PropagateFailure<U>(): Result<U>
      requires Err?
    {
      Err(error)
    }

    function Extract(): T
      requires Ok?
    {
      value
    }
  }

  /** A possibly absent value: Java's `null`. */
  datatype Option<+T> = None | Some(value: T)
}
