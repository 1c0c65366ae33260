/** A value that may be missing: the results of look-ups and of operations that can fail. */
module Wrappers {

  datatype Option<+T> = None | Some(value: T)
}
