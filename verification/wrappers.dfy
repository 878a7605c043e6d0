/** Small failure-carrying datatypes shared by the other modules. */
module Wrappers {

  /** Rust's `Option`: a value that may be absent. */
  datatype Option<+T> = None | Some(value: T)
}
