/** A value that may be absent: the source's NULL pointers and "not found" results. */
module Wrappers {
  datatype Option<+T> = None | Some(value: T)
}
