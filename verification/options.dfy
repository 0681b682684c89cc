/** The optional value used wherever the source works with `undefined`. */
module Options {
  datatype Option<+T> = None | Some(value: T)
}
