/** An optional value: Python's `None`, C#'s `null`, or an absent key. */
module Wrappers {

  datatype Option<+T> = None | Some(value: T)
}
