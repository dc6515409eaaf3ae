/** The optional value used where the source has Python's `None`. */
module Wrappers {

  datatype Option<+T> = None | Some(value: T)
}
