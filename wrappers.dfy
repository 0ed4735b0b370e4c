/** Optional values: a Python attribute that may be None, or a failure that may not happen. */
module Wrappers {

  datatype Option<+T> = None | Some(value: T)

}
