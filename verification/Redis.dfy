/** The Redis commands the service issues, on one map from keys to entries that
    may carry an expiry time. Time is counted in microseconds, so that whole
    seconds are a floor and the sub-second part is visible. */
module Redis {
  import opened Wrappers

  type Time = nat

  const TICKS_PER_SECOND: nat := 1_000_000

  /** `int(timestamp)` of a non-negative time. */
  function Seconds(t: Time): nat { t / TICKS_PER_SECOND }

  datatype Entry<+V> = Entry(value: V, expiry: Option<Time>)

  /** An entry is gone from the instant its expiry is reached. */
  predicate Live<V>(e: Entry<V>, now: Time) {
    e.expiry.None? || now < e.expiry.value
  }

  predicate Exists<K, V>(m: map<K, Entry<V>>, now: Time, k: K) {
    k in m && Live(m[k], now)
  }

  function Get<K, V>(m: map<K, Entry<V>>, now: Time, k: K): Option<V> {
    if Exists(m, now, k) then Some(m[k].value) else None
  }

  /** SET key value EX ttl */
  function SetEx<K, V>(m: map<K, Entry<V>>, now: Time, k: K, v: V, ttl: nat): map<K, Entry<V>> {
    m[k := Entry(v, Some(now + ttl * TICKS_PER_SECOND))]
  }

  function Delete<K, V>(m: map<K, Entry<V>>, k: K): map<K, Entry<V>> {
    m - {k}
  }

  /** EXPIRE key ttl: does nothing on a missing key. */
  function Expire<K, V>(m: map<K, Entry<V>>, now: Time, k: K, ttl: nat): map<K, Entry<V>> {
    if Exists(m, now, k) then m[k := m[k].(expiry := Some(now + ttl * TICKS_PER_SECOND))] else m
  }

  /** INCR key: a missing key starts at one without an expiry; an existing
      key keeps its expiry. */
  function Incr<K>(m: map<K, Entry<int>>, now: Time, k: K): map<K, Entry<int>> {
    if Exists(m, now, k) then m[k := m[k].(value := m[k].value + 1)] else m[k := Entry(1, None)]
  }
}
