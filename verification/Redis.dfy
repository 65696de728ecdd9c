/**
 The commands and scripts the server sends to Redis, each one atomic, over a store of values with
 expiry times. An entry is visible strictly before its expiry time.
 */
module Redis {
  datatype Entry<V> = Entry(value: V, expires: int)

  predicate Live<K, V>(store: map<K, Entry<V>>, key: K, now: int) {
    key in store && now < store[key].expires
  }

  predicate Holds<K, V(==)>(store: map<K, Entry<V>>, key: K, value: V, now: int) {
    Live(store, key, now) && store[key].value == value
  }

  function SetWithExpiry<K, V>(store: map<K, Entry<V>>, key: K, value: V, ttl: int, now: int): map<K, Entry<V>> {
    store[key := Entry(value, now + ttl)]
  }

  /** SETNX with an expiry: writes only when no live entry is there. */
  function SetIfAbsent<K, V>(store: map<K, Entry<V>>, key: K, value: V, ttl: int, now: int): map<K, Entry<V>> {
    if Live(store, key, now) then store else SetWithExpiry(store, key, value, ttl, now)
  }

  /** The renewal script: extends the entry only while it holds `value`. */
  function CompareAndExpire<K, V(==)>(store: map<K, Entry<V>>, key: K, value: V, ttl: int, now: int): map<K, Entry<V>> {
    if Holds(store, key, value, now) then SetWithExpiry(store, key, value, ttl, now) else store
  }

  /** The release script: deletes the entry only while it holds `value`. */
  function CompareAndDelete<K, V(==)>(store: map<K, Entry<V>>, key: K, value: V, now: int): map<K, Entry<V>> {
    if Holds(store, key, value, now) then map k | k in store && k != key :: store[k] else store
  }
}
