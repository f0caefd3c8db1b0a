/** The optional value used for everything that may be undefined or null in the source. */
module Wrappers {
  datatype Option<+T> = None | Some(value: T)
}
