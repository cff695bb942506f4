/* A value that may be absent: ECMAScript's `undefined` and `null`. */
module Wrappers {
  datatype Option<+T> = None | Some(value: T)
}
