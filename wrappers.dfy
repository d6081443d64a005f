/** Failure-carrying datatypes shared by the modules of this project. */
module Wrappers {

  /** A value that may be missing (a PHP `false` from `get_transient`, a parse that failed). */
  datatype Option<+T> = None | Some(value: T)

  /** The outcome of a step that either succeeds or fails with an error. */
  datatype Outcome<+E> = Pass | Fail(error: E)
}
