module Wrappers {
  // A C pointer that may be NULL, or a value that may be absent.
  datatype Option<+T> = None | Some(value: T)
}
