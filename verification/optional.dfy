/** The Some/None datatype used for Go's nil-able values (an `error` that may be nil). */
module Optional {

  datatype Option<+T> = None | Some(value: T)
}
