/** The usual optional value, for results that Python and C++ give as None or a null pointer. */
module Wrappers {
  datatype Option<+T> = None | Some(value: T)
}
