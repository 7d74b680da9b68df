/** Optional values, standing for C#'s nullable values and for TryGetValue's out-parameter. */
module Wrappers {

  datatype Option<+T> = None | Some(value: T)
}
