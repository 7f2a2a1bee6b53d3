/** The optional value that stands for a possibly-null pointer. */
module Wrappers {

  datatype Option<+T> = None | Some(value: T)
}
