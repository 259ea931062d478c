/** Vocabulary shared by the other modules: optional values, map lookup and lists without repeats. */
module Prelude {

  datatype Option<+T> = None | Some(value: T)

  /** `dict.get(key)`. */
  function Get<K, V>(m: map<K, V>, k: K): (r: Option<V>)
    ensures r.Some? <==> k in m
    ensures r.Some? ==> r.value == m[k]
  {
    if k in m then Some(m[k]) else None
  }

  /** `dict.pop(key, None)`. */
  function Without<K(!new), V>(m: map<K, V>, k: K): (r: map<K, V>)
    ensures Get(r, k) == None
    ensures forall j :: j != k ==> Get(r, j) == Get(m, j)
  {
    m - {k}
  }

  ghost predicate Distinct<T>(s: seq<T>) {
    forall i, j :: 0 <= i < j < |s| ==> s[i] != s[j]
  }
}
