/** The optional value that the handlers return (Rust's `Option`). */
module Wrappers {

  datatype Option<+T> = None | Some(value: T)
}
