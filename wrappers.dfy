/** Python's `None`-or-value, used for optional strings and optional method sets. */
module Wrappers {
  datatype Option<+T> = None | Some(value: T)
}
