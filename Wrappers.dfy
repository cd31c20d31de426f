/** The optional value used for the toast's pending dismiss deadline. */
module Wrappers {
  datatype Option<+T> = None | Some(value: T)
}
