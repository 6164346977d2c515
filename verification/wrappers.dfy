/** The optional-value datatype used across the model (a selected file, a
    tri-state flag, a decoded identifier). */
module Wrappers {

  datatype Option<+T> = None | Some(value: T)
}
