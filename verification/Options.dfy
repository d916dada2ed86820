/** The optional values used for Python's None. */
module Options {
  datatype Option<+T> = None | Some(value: T)
}
