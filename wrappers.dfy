/** The optional value the model uses for the C code's NULL pointers and "nothing read" results. */
module Wrappers {
  datatype Option<+T> = None | Some(value: T)
}
