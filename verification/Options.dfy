/** The result of a search: the source's pointer that may be NULL. */
module Options {
  datatype Option<+T> = None | Some(value: T)
}
