/** The optional value returned by the host world's block lookup. */
module Wrappers {

  datatype Option<+T> = None | Some(value: T)
}
