/** Rust's `Option`, used for the list cursor and for `Vec::get`. */
module Wrappers {
  datatype Option<+T> = None | Some(value: T)
}
