/** Optional values and fallible results shared by every module of the model. */
module Wrappers {

  datatype Option<+T> = None | Some(value: T)

  /** A JavaScript call that either returns a value or throws an error carrying a message. */
  datatype Result<+T, +E> = Success(value: T) | Failure(error: E)

  function Get<K, V>(m: map<K, V>, k: K): Option<V>
  {
    if k in m then Some(m[k]) else None
  }
}
