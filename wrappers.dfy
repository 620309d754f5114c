/** An optional value, for the fetch rejection's message that may be missing. */
module Wrappers {
  datatype Option<+T> = None | Some(value: T)
}
