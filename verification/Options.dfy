/** The result of an operation that may fail without saying more. */
module Options {
  datatype Option<T> = None | Some(value: T)
}
