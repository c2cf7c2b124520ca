/** Key families of the shared key-value store, with the expiry rules the services rely on. */
module Keyspace {

  datatype Option<+T> = None | Some(value: T)

  const SECOND := 1_000_000_000
  const MINUTE := 60 * SECOND
  const DAY := 24 * 60 * MINUTE

  /** A stored value and the instant it stops being visible, if any. */
  datatype Entry<+V> = Entry(value: V, expires: Option<int>)

  predicate Live<K, V>(m: map<K, Entry<V>>, k: K, now: int) {
    k in m && (m[k].expires.None? || now < m[k].expires.value)
  }

  function Get<K, V>(m: map<K, Entry<V>>, k: K, now: int): Option<V> {
    if Live(m, k, now) then Some(m[k].value) else None
  }

  /** SET with a time to live. */
  function SetFor<K, V>(m: map<K, Entry<V>>, k: K, v: V, now: int, ttl: int): map<K, Entry<V>> {
    m[k := Entry(v, Some(now + ttl))]
  }

  /** EXPIRE, which does nothing to a key that is not there. */
  function Expire<K, V>(m: map<K, Entry<V>>, k: K, now: int, ttl: int): map<K, Entry<V>> {
    if Live(m, k, now) then m[k := m[k].(expires := Some(now + ttl))] else m
  }

  /** INCR, which starts a missing counter at one without an expiry. */
  function Incr<K>(m: map<K, Entry<int>>, k: K, now: int): map<K, Entry<int>> {
    if Live(m, k, now) then m[k := m[k].(value := m[k].value + 1)] else m[k := Entry(1, None)]
  }
}
