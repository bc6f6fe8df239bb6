/** A value that may be missing, as C's null pointers and the history fields need it. */
module Options {
  datatype Option<+T> = None | Some(value: T)
}
