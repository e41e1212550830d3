/** A value that may be absent: the source's `None`. */
module Wrappers {

  datatype Option<+T> = None | Some(value: T)
}
