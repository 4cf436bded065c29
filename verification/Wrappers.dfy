module Wrappers {
  /** A value that may be absent: a nil reference, a missing key, or a "not found" second result. */
  datatype Option<+T> = None | Some(value: T)
}
