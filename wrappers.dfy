/** The optional-value datatype used wherever the JavaScript code returns a value or `null`. */
module Wrappers {

  datatype Option<+T> = None | Some(value: T)

  /** `m.getItem(key)` of the Web Storage interface: the stored string, or `null` when `key` is absent. */
  function Lookup(m: map<string, string>, key: string): (r: Option<string>)
    ensures r.Some? <==> key in m
    ensures r.Some? ==> r.value == m[key]
  {
    if key in m then Some(m[key]) else None
  }
}
