/** The optional value used throughout the model for JavaScript `null`/`undefined` and Python `None`. */
module Options {
  datatype Option<+T> = None | Some(value: T)
}
