/** A value that may be missing: a null pointer, an uninitialised field, a search that found nothing. */
module Options {
  datatype Option<+T> = None | Some(value: T)
}
