/** Python's `None`, and C's `NULL`, as a value. */
module Options {
  datatype Option<+T> = None | Some(value: T)
}
