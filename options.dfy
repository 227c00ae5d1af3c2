/** The absent-or-present value used where the Go code returns a nil pointer. */
module Options {

  datatype Option<+T> = None | Some(value: T)
}
