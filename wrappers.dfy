/** Optional values and error-carrying results shared by the model. */
module Wrappers {

  /** An optional value; for table cells `None` stands for a missing (NaN) observation. */
  datatype Option<T> = None | Some(value: T)

  /** What the pipeline can fail with: a selection of column labels that are absent
      from the loaded table (pandas raises `KeyError` listing them). */
  datatype Error = KeyError(missing: seq<string>)

  datatype Result<T> = Success(value: T) | Failure(error: Error)

  /** `dict.get(key, None)`: the mapped value when the key is present, `None` (not an
      error) when it is absent. */
  function Get<K, V>(m: map<K, V>, key: K): (r: Option<V>)
    ensures r.Some? <==> key in m
    ensures r.Some? ==> r.value == m[key]
  {
    if key in m then Some(m[key]) else None
  }
}
