/** A value that may be absent: what the program writes as `undefined` or `null`. */
module Options {
  datatype Option<+T> = None | Some(value: T)
}
