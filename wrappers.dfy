/** Option type shared by the models: an empty C pointer or a missing result. */
module Wrappers {
  datatype Option<+T> = None | Some(value: T)
}
