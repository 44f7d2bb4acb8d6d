/** Optional values: a C# reference that may be null (an empty square, a missing move). */
module Wrappers {

  datatype Option<+T> = None | Some(value: T)
}
