/** A value or nothing, for the null pointers of the source. */
module Wrappers {
  datatype Option<+T> = None | Some(value: T)
}
