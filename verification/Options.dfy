module Options {
  datatype Option<+T> = None | Some(value: T)

  /** What a map has for a key. */
  function Lookup<K, V>(m: map<K, V>, key: K): Option<V> { if key in m then Some(m[key]) else None }
}
