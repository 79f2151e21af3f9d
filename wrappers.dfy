/** The absent-or-present value the script returns as `undefined` or an object. */
module Wrappers {
  datatype Option<+T> = None | Some(value: T)
}
