/** Optional values: JavaScript's `undefined` for a missing option, header,
    query parameter or route tag list. */
module Wrappers {

  datatype Option<+T> = None | Some(value: T)

  /** The value stored under `key`, or None when the map has no such key
      (JavaScript's property lookup yielding `undefined`). */
  function Get<K, V>(m: map<K, V>, key: K): (r: Option<V>)
    ensures r.Some? <==> key in m
    ensures r.Some? ==> r.value == m[key]
  {
    if key in m then Some(m[key]) else None
  }
}
