/** The optional value used wherever the program's library calls may yield nothing. */
module Wrappers {

  datatype Option<+T> = None | Some(value: T)
}
