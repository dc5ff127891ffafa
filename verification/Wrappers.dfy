/** The optional value used throughout the model for null pointers and failed lookups. */
module Wrappers {
  datatype Option<+T> = None | Some(value: T)
}
