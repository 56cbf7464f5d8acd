/** The result of something that may fail. */
module Wrappers {

  datatype Option<+T> = None | Some(value: T)
}
