/** Option datatype used for the C code's nullable pointers and optional results. */
module Wrappers {

  /** `None` stands for a NULL pointer or an absent value. */
  datatype Option<+T> = None | Some(value: T)
}
