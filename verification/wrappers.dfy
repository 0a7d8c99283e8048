/** The optional-value type shared by every module of the model. */
module Wrappers {

  /** A value that may be absent: std::optional, a null pointer or a thrown exception. */
  datatype Option<+T> = None | Some(value: T)
}
