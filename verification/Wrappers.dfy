/** A value that may be missing, such as a null pointer. */
module Wrappers {
  datatype Option<+T> = None | Some(value: T)
}
