/** The option type the models share. */
module Options {
  datatype Option<+T> = None | Some(value: T)
}
