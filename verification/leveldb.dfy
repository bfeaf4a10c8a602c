/** The embedded key-value store seen as a pure map from byte keys to byte
    values, with its three point operations. */
module LevelDB {
  import opened Types

  type Store = map<Bytes, Bytes>

  /** A freshly opened, empty store. */
  const Empty: Store := map[]

  /** `a` and `b` agree at `k`: both lack it, or both hold the same value. */
  predicate SameAt(a: Store, b: Store, k: Bytes) {
    && (k in a <==> k in b)
    && (k in a ==> a[k] == b[k])
  }

  /** Point read; a miss is reported as NotFound. */
  function Get(db: Store, key: Bytes): (r: Result<Bytes>)
    ensures r.Ok? <==> key in db
    ensures r.Ok? ==> r.value == db[key]
    ensures r.Err? ==> r.error == NotFound
  {
    if key in db then Ok(db[key]) else Err(NotFound)
  }

  /** Unconditional upsert. */
  function Put(db: Store, key: Bytes, value: Bytes): (r: Store)
    ensures key in r && r[key] == value
    ensures forall k :: k != key ==> SameAt(db, r, k)
  {
    db[key := value]
  }

  /** Point delete; deleting an absent key changes nothing. */
  function Delete(db: Store, key: Bytes): (r: Store)
    ensures key !in r
    ensures forall k :: k != key ==> SameAt(db, r, k)
    ensures key !in db ==> r == db
  {
    db - {key}
  }
}
