/** The optional-value datatype used wherever the compiler returns a null pointer on failure. */
module Wrappers {

  datatype Option<+T> = None | Some(value: T)
}
