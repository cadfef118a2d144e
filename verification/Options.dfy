// A result that may be absent: the original's null pointers.
module Options {
  datatype Option<+T> = None | Some(value: T)
}
