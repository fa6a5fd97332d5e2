/** Optional values, standing for the source's `undefined`/`null` and for find-first results. */
module Wrappers {

  datatype Option<+T> = None | Some(value: T)
}
