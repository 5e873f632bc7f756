/** Optional values: the model's stand-in for C calls that can run off the end of their input. */
module Options {
  datatype Option<T> = None | Some(value: T)
}
