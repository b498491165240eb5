/** Exceptions of the agent, as values. */
module Results {

  /** One constructor per exception class a codec call can raise.
      `TypeFault` stands for the AttributeError or TypeError that Python raises by itself. */
  datatype Error = DecodeError | EncodeError | FrameTooBig | EndOfStream | TypeFault

  datatype Result<+T> = Ok(value: T) | Err(error: Error) {
    predicate IsFailure() {
      Err?
    }

    function PropagateFailure<U>(): Result<U>
      requires Err?
    {
      Err(error)
    }

    function Extract(): T
      requires Ok?
    {
      value
    }
  }

  datatype Option<+T> = None | Some(value: T)
}
