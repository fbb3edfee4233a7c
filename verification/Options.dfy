/** A value that may be absent: C's null pointers and error returns. */
module Options {
  datatype Option<T> = None | Some(value: T)
}
