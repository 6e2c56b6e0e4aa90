/** Optional values: an absent DOM element, an unparsable CSS length, a cleared timer handle. */
module Wrappers {
  datatype Option<+T> = None | Some(value: T)
}
