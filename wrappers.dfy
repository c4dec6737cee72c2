/** Optional values: an absent query parameter or an unset environment variable. */
module Wrappers {

  datatype Option<+T> = None | Some(value: T)

}
