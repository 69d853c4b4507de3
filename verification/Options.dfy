/** A value that may be missing: the source's nil, zero time or false second result. */
module Options {
  datatype Option<T> = None | Some(value: T)
}
