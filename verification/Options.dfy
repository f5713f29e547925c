/** The optional value the models share: a result that may be missing. */
module Options {
  datatype Option<+T> = None | Some(value: T)
}
