/** The Some/None datatype used for C's possibly-NULL pointers. */
module Options {
  datatype Option<+T> = None | Some(value: T)
}
