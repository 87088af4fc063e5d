/** Optional values: a Dash input that the user has cleared arrives as Python's None. */
module Wrappers {

  datatype Option<+T> = None | Some(value: T)
}
