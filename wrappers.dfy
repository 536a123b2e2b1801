/** Failure-carrying values shared by the rest of the model. */
module Wrappers {

  /** A value that may be absent (JavaScript `null`/`undefined`). */
  datatype Option<+T> = None | Some(value: T)

  /** The result of a server action that either returns normally or throws `error`. */
  datatype Outcome<+E> = Pass | Fail(error: E)
}
