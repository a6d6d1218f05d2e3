/** Option, for a value that may be absent: an optional argument, a parse that can fail. */
module Wrappers {
  datatype Option<+T> = None | Some(value: T)
}
