/** The optional value used for Go's nil-able results (a `*T` that may be nil, an `error` that may be nil). */
module Wrappers {

  datatype Option<+T> = None | Some(value: T)
}
