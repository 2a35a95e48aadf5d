/** A value that may be absent: a table row that does not exist, a pointer that may be NULL. */
module Wrappers {
  datatype Option<T> = None | Some(value: T)
}
