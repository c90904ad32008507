/** The optional-value type used wherever the scripts read something that may be absent. */
module Options {
  datatype Option<+T> = None | Some(value: T)
}
