/** A result that may be missing: the null pointers the C functions return. */
module Wrappers {
  datatype Option<+T> = None | Some(value: T)
}
