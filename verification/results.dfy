/** Failure-carrying datatypes shared by every part of the theme engine:
    `Option` stands for a value that may be nil, `Result` for a resolution
    that either produces a value or reports why it could not. */
module Results {

  /** A value that may be absent (an Objective-C `nil`). */
  datatype Option<+T> = None | Some(value: T)

  /** The outcome of a resolution: a value, or the error that stopped it. */
  datatype Result<+T, +E> = Ok(value: T) | Err(error: E)

  /** Map lookup that answers `None` for a missing key. */
  function Lookup<K, V>(m: map<K, V>, k: K): (r: Option<V>)
    ensures r.Some? <==> k in m
    ensures r.Some? ==> r.value == m[k]
  {
    if k in m then Some(m[k]) else None
  }
}
