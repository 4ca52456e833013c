/**
 The browser's per-origin `localStorage`, abstracted as a finite map from
 keys to string values. Only the operations the theme engine uses appear.
 */
module KeyValueStore {
  import opened Wrappers

  type Store = map<string, string>

  /** `localStorage.getItem(key)`: the stored string, or `null` (None). */
  function GetItem(store: Store, key: string): (r: Option<string>)
    ensures r.Some? <==> key in store
    ensures r.Some? ==> r.value == store[key]
  {
    if key in store then Some(store[key]) else None
  }

  /** Both stores hold the same entry (or both none) under `k`. */
  predicate SameAt(a: Store, b: Store, k: string) {
    (k in a <==> k in b) && (k in a ==> a[k] == b[k])
  }

  /** The two stores differ at most under the keys in `keys`. */
  ghost predicate AgreeOutside(a: Store, b: Store, keys: set<string>) {
    forall k :: k !in keys ==> SameAt(a, b, k)
  }
}
