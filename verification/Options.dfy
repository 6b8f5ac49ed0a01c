/** Optional values, as the Rust and Python sources use them. */
module Options {
  datatype Option<+T> = None | Some(value: T)
}
