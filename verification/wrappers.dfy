/** The optional value the engine expresses with a success flag and an
    out-parameter. */
module Wrappers {
  datatype Option<T> = None | Some(value: T)
}
