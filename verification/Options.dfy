/** A value that may be missing: the source's nil pointers. */
module Options {
  datatype Option<+T> = None | Some(value: T)
}
