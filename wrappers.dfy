/** Optional values, used for absent rule constraints, missing attributes and unparsed dates. */
module Wrappers {
  datatype Option<+T> = None | Some(value: T)
}
