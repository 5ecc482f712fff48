/** Optional values, used wherever a JavaScript property may be absent. */
module Wrappers {

  datatype Option<+T> = None | Some(value: T)
}
