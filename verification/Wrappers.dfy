/** Values that may be absent, results that may be errors, calls that may fail. */
module Wrappers {
  datatype Option<+T> = None | Some(value: T)

  /// How one call to a remote store fares: it applies and answers, it fails without
  /// applying, or it applies and its answer is lost.
  datatype Fault = Fine | NotApplied | ReplyLost

  datatype Result<+T, +E> = Ok(value: T) | Err(error: E)
}
