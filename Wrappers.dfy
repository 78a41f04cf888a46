/** Optional values: `null`/`undefined` in the component become `None`. */
module Wrappers {

  datatype Option<+T> = None | Some(value: T)
}
