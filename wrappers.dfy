/** Optional values: the model's stand-in for "a strategy produced nothing" or "this call raised". */
module Wrappers {

  datatype Option<+T> = None | Some(value: T)

}
