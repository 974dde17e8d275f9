/** A value that may be missing: a JavaScript `null` or `undefined`. */
module Options {
  datatype Option<+T> = None | Some(value: T)
}
