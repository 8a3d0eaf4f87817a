/** A value that may be missing: SQL's null, Python's None. */
module Options {
  datatype Option<T> = None | Some(value: T)
}
