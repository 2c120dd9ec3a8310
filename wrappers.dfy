/** Option and Result, the two failure-carrying wrappers the converter uses. */
module Wrappers {

  datatype Option<+T> = None | Some(value: T)

  /** The error of a fallible call; the converter only ever reports it, so its text is kept as a plain string. */
  datatype Error = Error(message: string)

  datatype Result<+T> = Ok(value: T) | Err(error: Error) {
    predicate IsFailure() { Err? }

    function PropagateFailure<U>(): Result<U>
      requires Err?
    {
      Err(error)
    }

    function Extract(): T
      requires Ok?
    {
      value
    }
  }
}
