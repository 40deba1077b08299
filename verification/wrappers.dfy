/** The optional value used wherever the source returns a nil pointer. */
module Wrappers {

  datatype Option<+T> = None | Some(value: T)
}
