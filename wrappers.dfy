/** The optional value used where the game passes a value that may be absent (null). */
module Wrappers {

  datatype Option<+T> = None | Some(value: T)
}
