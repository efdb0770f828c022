/** The optional value used for the tool's settings that may still be unset
    (Python's `None`). */
module Wrappers {

  datatype Option<+T> = None | Some(value: T)
}
