/** An optional value: Python's None, a pandas missing value, or an absent dataset entry. */
module Wrappers {

  datatype Option<+T> = None | Some(value: T)
}
