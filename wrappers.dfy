/** Optional values and the outcome of an operation that the program may abort. */
module Wrappers {

  /** A value that may be absent (a null reference, an empty `optional`). */
  datatype Option<+T> = None | Some(value: T)

  /** The result of an operation whose failure the program reports as fatal
      (a failed `CHECK` or `FAIL`): the model returns the message instead of aborting. */
  datatype Outcome<+T> = Ok(value: T) | Fatal(message: string)
}
