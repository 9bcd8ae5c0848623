/** The optional value used for a token that the filter drops. */
module Wrappers {
  datatype Option<+T> = None | Some(value: T)
}
