// A value that may be missing: a null pointer, or the outcome of an undefined operation.
module Options {
  datatype Option<+T> = None | Some(value: T)
}
