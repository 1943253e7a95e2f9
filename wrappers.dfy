/** The optional value used throughout the model for Python's `None`-or-value
    results (a missing hit, an unset last hit, a player not in a list). */
module Wrappers {

  datatype Option<+T> = None | Some(value: T)
}
