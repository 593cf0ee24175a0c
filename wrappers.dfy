/** Option and Result, the two failure-carrying shapes the model uses for
    Go's `(value, error)` returns and for decode attempts. */
module Wrappers {

  datatype Option<+T> = None | Some(value: T)

  datatype Result<+T, +E> = Ok(value: T) | Err(error: E)

  /** A Go map read: the zero value when the key is absent. */
  function Get<K, V>(m: map<K, V>, k: K, zero: V): V
  {
    if k in m then m[k] else zero
  }
}
