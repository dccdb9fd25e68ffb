/** Optional values, standing in for TypeScript's `T | undefined` and optional fields. */
module Wrappers {

  datatype Option<+T> = None | Some(value: T)
}
