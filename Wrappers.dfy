/** Optional values: `None` stands where the Java code has `null` or `-1`. */
module Wrappers {

  datatype Option<+T> = None | Some(value: T)
}
