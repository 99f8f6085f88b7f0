/** A value that may be missing, as a NULL link or a failed search is. */
module Options {
  datatype Option<+T> = None | Some(value: T)
}
