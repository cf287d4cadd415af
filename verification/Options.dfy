/** The usual value-or-nothing type. */
module Options {
  datatype Option<+T> = None | Some(value: T)
}
