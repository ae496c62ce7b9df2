/** An optional value, for the source's null pointers and error returns. */
module Wrappers {
  datatype Option<+T> = None | Some(value: T)
}
