/** Stock optional value: the source's `(value, ok)` returns. */
module Options {
  datatype Option<+T> = None | Some(value: T)
}
