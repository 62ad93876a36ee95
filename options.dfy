/// The optional value used wherever the source holds `null` or `undefined`.
module Options {
  datatype Option<T> = None | Some(value: T)
}
