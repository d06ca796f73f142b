/** An optional value, for results the source returns as a pointer that may be null. */
module Options {
  datatype Option<+T> = None | Some(value: T)
}
