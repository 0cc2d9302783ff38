/** Values that may be absent: SQL NULL, `undefined`, a missing map entry. */
module Options {
  datatype Option<+T> = None | Some(value: T)
}
