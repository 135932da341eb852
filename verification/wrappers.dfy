/** The failure-carrying result used for Python's `KeyError`: a dictionary
    subscript either yields a value or fails. */
module Wrappers {

  datatype Option<+T> = None | Some(value: T)
}
