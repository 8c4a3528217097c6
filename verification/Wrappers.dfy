/** Shared option type: Go's nil pointers, empty identifiers and missing map entries. */
module Wrappers {
  datatype Option<+T> = None | Some(value: T)
}
