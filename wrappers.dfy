/** Option, the conventional "value or nothing" datatype used throughout the model. */
module Wrappers {

  datatype Option<+T> = None | Some(value: T)
}
