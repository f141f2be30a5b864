/** A value that may be missing, or the result of an operation that may fail. */
module Options {
  datatype Option<+T> = None | Some(value: T)
}
