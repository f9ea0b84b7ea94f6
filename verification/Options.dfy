// A value or none.

module Options {
  datatype Option<T> = None | Some(value: T)
}
