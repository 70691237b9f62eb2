/** A value that may be missing: a null pointer, BITMAP_ERROR, a failed allocation. */
module Wrappers {
  datatype Option<+T> = None | Some(value: T)
}
