/** Optional values, standing in for TypeScript's `undefined` / `null`. */
module Wrappers {
  datatype Option<+T> = None | Some(value: T)
}
