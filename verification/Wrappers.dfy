/** The usual optional value, for what Python returns or stores as None. */
module Wrappers {
  datatype Option<+T> = None | Some(value: T)
}
