/** A value that may be absent: an attribute the source never assigned, a failed parse. */
module Wrappers {
  datatype Option<+T> = None | Some(value: T)
}
