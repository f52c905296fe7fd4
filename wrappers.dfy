/** An optional value, used for a configuration key that may be missing. */
module Wrappers {
  datatype Option<+T> = None | Some(value: T)
}
