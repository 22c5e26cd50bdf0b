/** The optional value that stands for Go's `(value, err)` returns in this model. */
module Wrappers {

  datatype Option<+T> = None | Some(value: T)

}
