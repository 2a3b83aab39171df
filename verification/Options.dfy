/** Values that may be missing, and operations that may refuse. */
module Options {
  datatype Option<+T> = None | Some(value: T)
}
