/** The optional value used wherever the source returns None or a missing lookup. */
module Wrappers {

  datatype Option<+T> = None | Some(value: T)
}
