/** An optional value, for a read that may fail or a parse that may not match. */
module Options {
  datatype Option<T> = None | Some(value: T)
}
