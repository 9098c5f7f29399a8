/** Shared wrappers. */
module Common {
  datatype Option<+T> = None | Some(value: T)
}
