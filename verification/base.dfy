/** Small failure-carrying datatypes shared by the rest of the model. */
module Base {

  /** A value that may be absent: a missing map entry, a nil pointer, an unset field. */
  datatype Option<+T> = None | Some(value: T)

  /** Either a value or the error an operation reports instead of it. */
  datatype Result<+T, +E> = Ok(value: T) | Err(error: E)

  /** Looks a key up in a map, absent keys giving None (Go's `v, ok := m[k]`). */
  function Lookup<K, V>(m: map<K, V>, k: K): (r: Option<V>)
    ensures r.Some? <==> k in m
    ensures r.Some? ==> r.value == m[k]
  {
    if k in m then Some(m[k]) else None
  }
}
