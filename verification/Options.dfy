/** A value that may be missing: a null pointer, an empty slot, a search without a result. */
module Options {
  datatype Option<+T> = None | Some(value: T)
}
