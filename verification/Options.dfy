/** A value that may be missing: SQL NULL, Python None. */
module Options {
  datatype Option<+T> = None | Some(value: T)
}
