/** Optional values: JavaScript's `null` in the modelled state. */
module Wrappers {

  datatype Option<+T> = None | Some(value: T)
}
