/** Python's `None` as a value: an optional result or a possibly missing cell. */
module Wrappers {
  datatype Option<+T> = None | Some(value: T)
}
