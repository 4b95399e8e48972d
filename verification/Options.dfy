/** A value that may be missing: the nil pointers and error returns of the source. */
module Options {
  datatype Option<+T> = None | Some(value: T)
}
