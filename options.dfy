/** The optional value used throughout the model (a JS `undefined`-or-value). */
module Options {
  datatype Option<+T> = None | Some(value: T)
}
