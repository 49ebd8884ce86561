module Options {

  // A value that may be absent: a NULL column, a missing field, nothing found.
  datatype Option<+T> = None | Some(value: T)
}
