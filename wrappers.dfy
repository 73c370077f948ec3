/** Option and Result values for the model's lookups and aborting calls. */
module Wrappers {

  datatype Option<+T> = None | Some(value: T)

  /** `Failure` is a call that panics; the host then discards every write the call made. */
  datatype Result<+R, +E> = Success(value: R) | Failure(error: E)

  /** A check that either passes or names why it failed (`Result<(), E>`). */
  datatype Outcome<+E> = Pass | Fail(error: E)
}
