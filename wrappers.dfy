/** The absent-or-present result that `get` and `get_mut` return. */
module Wrappers {
  datatype Option<+T> = None | Some(value: T)
}
