/** Rust's `Option`, shared by every module that models a lookup that can miss. */
module Options {
  datatype Option<T> = None | Some(value: T)
}
