/** The optional values used by the model: a command-line filter that may be
    absent, and a gas lookup that may fail. */
module Wrappers {

  datatype Option<+T> = None | Some(value: T)
}
