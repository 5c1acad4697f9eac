/** Optional values: an absent DOM element, an absent storage entry, a missed search. */
module Wrappers {

  datatype Option<+T> = None | Some(value: T)
}
