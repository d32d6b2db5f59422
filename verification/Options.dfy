/** The optional value returned wherever the source returns `undefined` for "nothing". */
module Options {
  datatype Option<+T> = None | Some(value: T)
}
