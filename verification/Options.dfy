module Options {
  /** A value or nothing, for results the code returns as an `Option`. */
  datatype Option<+T> = None | Some(value: T)
}
