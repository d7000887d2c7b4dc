/** Absence and failure as values. */
module Wrappers {

  /** A value that may be missing: JavaScript's `null` / `undefined`. */
  datatype Option<+T> = None | Some(value: T)

  /** The outcome of an asynchronous operation: the value its promise resolves
      to, or the message of the error it rejects with. */
  datatype Outcome<+T> = Ok(value: T) | Fail(message: string)
}
