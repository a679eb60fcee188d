/** Optional values, shared by the whole model. */
module Wrappers {
  datatype Option<+T> = None | Some(value: T)

  function Repeat<T>(x: T, n: nat): seq<T> { seq(n, _ => x) }
}
