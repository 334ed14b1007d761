/** An optional value: a lookup that may fail, a part that may be missing. */
module Wrappers {
  datatype Option<+T> = None | Some(value: T)
}
