/** A value or none. */
module Options {
  datatype Option<+A> = None | Some(value: A)
}
