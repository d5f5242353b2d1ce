/** The optional value used for geometry that may be missing (a ref whose element is not mounted). */
module Wrappers {
  datatype Option<+T> = None | Some(value: T)
}
