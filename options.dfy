/** An optional value: the caller's override vectors and extra body may be absent. */
module Options {
  datatype Option<T> = None | Some(value: T)
}
