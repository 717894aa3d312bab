/** Optional values: None stands for an absent value or a raised exception. */
module Options {
  datatype Option<+T> = None | Some(value: T)
}
