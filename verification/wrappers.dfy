/** Optional values: the model's stand-in for Swift optionals and for
    framework calls that may fail. */
module Wrappers {

  datatype Option<+T> = None | Some(value: T)
}
