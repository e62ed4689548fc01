/** Optional values, used where the source either produces a value or does not. */
module Wrappers {

  datatype Option<+T> = None | Some(value: T)

}
