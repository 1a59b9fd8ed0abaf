/** An optional value: a queued message that may or may not be there. */
module Options {
  datatype Option<T> = None | Some(value: T)
}
