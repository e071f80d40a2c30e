/** A value that may be missing: what the sources express with null pointers. */
module Options {
  datatype Option<+T> = None | Some(value: T)
}
