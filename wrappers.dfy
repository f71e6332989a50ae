/** The optional value used wherever the server stores Python's `None`. */
module Wrappers {
  datatype Option<+T> = None | Some(value: T)
}
