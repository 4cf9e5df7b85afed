/** The optional value that stands for a C function's NULL or sentinel return. */
module Wrappers {

  datatype Option<+T> = None | Some(value: T)
}
