/** The optional value used for lookups that may miss and for the caller's identity. */
module Wrappers {
  datatype Option<+T> = None | Some(value: T)
}
