/** The optional value used throughout the model for "the lookup failed" or
    "Python raised here". */
module Wrappers {

  datatype Option<T> = None | Some(value: T)
}
