/** The optional value used throughout the model. */
module Wrappers {
  datatype Option<+T> = None | Some(value: T)

  /** The database view of a map: a key is either absent or bound to one value. */
  function Lookup<K, V>(m: map<K, V>, k: K): Option<V> {
    if k in m then Some(m[k]) else None
  }
}
