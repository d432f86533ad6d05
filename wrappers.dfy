/** Wrappers shared by the model for PHP's nullable results and thrown exceptions. */
module Wrappers {
  /** A nullable value: `None` is PHP's `null`. */
  datatype Option<+T> = None | Some(value: T)

  /** A call that either returns `value` or throws `error`. */
  datatype Result<+T, +E> = Success(value: T) | Failure(error: E)
}
