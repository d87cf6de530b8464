/** A value that may be missing: the model's counterpart of a nil pointer. */
module Options {
  datatype Option<+T> = None | Some(value: T)
}
