/** Small failure-compatible wrapper shared by the other modules. */
module Wrappers {

  /** A value that may be absent; stands for a nullable pointer or a missing key. */
  datatype Option<+T> = None | Some(value: T)
}
