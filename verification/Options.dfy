/** An optional value: the result of an operation that may have none. */
module Options {
  datatype Opt<+T> = None | Some(val: T)
}
