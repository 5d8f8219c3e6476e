/** An optional value: an accepted input, or nothing. */
module Wrappers {

  datatype Option<+T> = None | Some(value: T)
}
