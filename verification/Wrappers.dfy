/** The optional value used wherever the source has a nullable column or a null result. */
module Wrappers {
  datatype Option<+T> = None | Some(value: T)
}
