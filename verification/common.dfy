/** Small failure-carrying datatypes shared by every module of the model. */
module Common {

  /** A value that may be absent: Go's `(v, ok)` lookups and Python's `None`. */
  datatype Option<+T> = None | Some(value: T) {
    function GetOr(default: T): T {
      match this
      case Some(v) => v
      case None => default
    }
  }

  /** A computation that either produced a value or failed with an error (Go's `(v, err)` pairs). */
  datatype Result<+R, +E> = Ok(value: R) | Err(error: E)

  /** A map lookup with a fallback: the stored value when the key is present, `default` otherwise. */
  function Lookup<K, V>(m: map<K, V>, key: K, default: V): (v: V)
    ensures key in m ==> v == m[key]
    ensures key !in m ==> v == default
  {
    if key in m then m[key] else default
  }
}
