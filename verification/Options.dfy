/** Optional values, standing for the sources' `None`, `Option` and missing dictionary keys. */
module Options {
  datatype Option<+T> = None | Some(value: T)
}
