/** The optional value used wherever the program works with "maybe nothing" (Python's `None`). */
module Wrappers {

  datatype Option<+T> = None | Some(value: T)

}
