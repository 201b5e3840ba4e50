/** The optional value that stands for a nullable Go pointer. */
module Wrappers {
  datatype Option<+T> = None | Some(value: T)
}
