/** A value that may be missing: a null pointer, a failed system call, a search without a hit. */
module Options {
  datatype Option<+T> = None | Some(value: T)
}
