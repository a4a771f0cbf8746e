/** A value that may be missing: a decoding that failed, a call that has not returned yet. */
module Options {

  datatype Option<T> = None | Some(value: T)
}
