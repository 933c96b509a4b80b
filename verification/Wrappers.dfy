/** The one generic datatype shared by all components. */
module Wrappers {
  /** A value that may be absent: std::optional, a missing file, a missing JSON member. */
  datatype Option<+T> = None | Some(value: T)
}
