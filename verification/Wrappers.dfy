/** Results of calls that may be missing or may fail. */
module Wrappers {

  /** A value, or the absence of one (a nil pointer in the services). */
  datatype Option<+T> = None | Some(value: T)

  /** The outcome of a call returning a value and an error. */
  datatype Result<+T> = Ok(value: T) | Err
}
