/** A value that may be absent: a dictionary key that is not there, or a Python `None`. */
module Wrappers {

  datatype Option<+T> = None | Some(value: T)
}
