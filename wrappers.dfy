/** The optional value used throughout the model for "no value" and for
    operations of the environment that can fail. */
module Wrappers {

  datatype Option<+T> = None | Some(value: T)
}
