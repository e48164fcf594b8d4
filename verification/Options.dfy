/** The result of an operation that may raise. */
module Options {
  datatype Option<+T> = None | Some(value: T)
}
