// Optional values, used wherever the source returns an `Option`, and for results whose error carries nothing.
module Wrappers {

  datatype Option<+T> = None | Some(value: T)
}
