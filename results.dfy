/**
 * The two wrappers the TypeScript code expresses with `undefined` and with
 * its `Result` helper: an optional value (a `Map.get` that may find nothing)
 * and the success-or-error outcome every parser returns.
 */
module Results {

  datatype Option<+T> = None | Some(value: T) {
    /** `value ?? default`. */
    function GetOr(default: T): T {
      match this
      case Some(v) => v
      case None => default
    }
  }

  /** `Map.prototype.get`: the value stored under `k`, or nothing. */
  function Get<K, V>(m: map<K, V>, k: K): (r: Option<V>)
    ensures r.Some? <==> k in m
    ensures r.Some? ==> r.value == m[k]
  {
    if k in m then Some(m[k]) else None
  }

  /** `ok(value)` or `err(error)`: never both. */
  datatype Result<+T, +E> = Success(value: T) | Failure(error: E)
}
