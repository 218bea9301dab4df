/** The optional values the other modules share. */
module Wrappers {

  datatype Option<+T> = None | Some(value: T)
}
