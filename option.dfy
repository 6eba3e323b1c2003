/** An optional value: a cursor that may be unset, a parse that may fail. */
module Options {
  datatype Option<T> = None | Some(value: T)
}
