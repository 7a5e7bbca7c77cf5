/** Optional values: Java's nullable references and the optional poller handle. */
module Wrappers {
  datatype Option<+T> = None | Some(value: T)
}
