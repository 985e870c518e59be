/** The optional value used for Go's `(value, error)` returns whose error carries no data the model needs. */
module Wrappers {

  datatype Option<+T> = None | Some(value: T)

}
