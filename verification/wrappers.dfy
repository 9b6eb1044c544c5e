/** The optional value used for absent keyboard input and for calls that throw. */
module Wrappers {

  datatype Option<+T> = None | Some(value: T)
}
