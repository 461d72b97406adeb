// An optional value, for std::optional and for the absence of a file or of a target.
module Options {
  datatype Option<T> = None | Some(value: T)
}
