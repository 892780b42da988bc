/** Rust's `Option`, for the matcher's answer and the selected index. */
module Options {
  datatype Option<+T> = None | Some(value: T)
}
