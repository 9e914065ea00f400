/** Optional values: a DOM lookup or attribute that may be missing, or an input
    value that may fail to parse. */
module Wrappers {

  datatype Option<+T> = None | Some(value: T)
}
