/** A value or nothing: what the source says with a null, a flag or -1. */
module Wrappers {
  datatype Option<T> = None | Some(value: T)
}
