/** A value, or the lack of one. */
module Wrappers {
  datatype Option<T> = None | Some(value: T)
}
