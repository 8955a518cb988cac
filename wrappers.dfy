/** Optional values: a theme name or home directory that may be missing, and
    the not-found result of a substring search. */
module Wrappers {

  datatype Option<+T> = None | Some(value: T)

}
