/** A value that may be absent, for the source's null results and error exits. */
module Options {
  datatype Option<+T> = None | Some(value: T)
}
