/** The conventional optional value, standing for a nullable result (`T?`). */
module Wrappers {
  datatype Option<+T> = None | Some(value: T)
}
