/** The optional value the lints spell `None` or a value. */
module Wrappers {
  datatype Option<+T> = None | Some(value: T)
}
