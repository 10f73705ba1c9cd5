/** A value that may be absent: JavaScript's `undefined` result of a lookup or an omitted argument. */
module Wrappers {
  datatype Option<+T> = None | Some(value: T)
}
