/** Optional values: a missing reply, a client id that is None, a failed assertion. */
module Options {
  datatype Option<+T> = None | Some(value: T)
}
