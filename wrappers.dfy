/** A value that may be absent: the model's stand-in for a NULL pointer
    or a "not found" answer. */
module Wrappers {
  datatype Option<+T> = None | Some(value: T)
}
