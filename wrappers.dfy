/** The optional value used wherever the source returns a nil-able value or error. */
module Wrappers {

  datatype Option<+T> = None | Some(value: T)
}
