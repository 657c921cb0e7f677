/** The usual optional-value datatype, standing in for the null pointers the driver tests. */
module Wrappers {

  datatype Option<+T> = None | Some(value: T)
}
