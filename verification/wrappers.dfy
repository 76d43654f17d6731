/** The option type shared by every module of the model. */
module Wrappers {

  /** A value that may be missing: a Python `None`, an absent dictionary key, a call that raised. */
  datatype Option<+T> = None | Some(value: T)
}
