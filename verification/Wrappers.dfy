/** The optional value used for `null`, `undefined` and thrown-away errors. */
module Wrappers {
  datatype Option<+T> = None | Some(value: T)
}
