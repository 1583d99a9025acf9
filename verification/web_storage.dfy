/** The browser's `localStorage`, shared by the session and the theme. */
module WebStorage {
  import opened Options

  /** Every key that is set maps to its text. */
  type Storage = map<string, string>

  /** `localStorage.getItem(key)`: the text, or `null` when the key is not
      set. */
  function GetItem(storage: Storage, key: string): (r: Option<string>)
    ensures r.Some? <==> key in storage
    ensures r.Some? ==> r.value == storage[key]
  {
    if key in storage then Some(storage[key]) else None
  }

  /** The storage agrees with `before` on every key but those in `keys`. */
  ghost predicate OthersKept(after: Storage, before: Storage, keys: set<string>) {
    forall k | k !in keys :: GetItem(after, k) == GetItem(before, k)
  }
}
