/** A value that may be missing: the source's null pointers, -1 results and None. */
module Options {
  datatype Option<T> = None | Some(value: T)
}
