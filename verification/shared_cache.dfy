/** The cache the services share: entries that expire. Time is in seconds and never runs backwards. */
module SharedCache {
  import opened Wrappers

  datatype Entry<+V> = Entry(value: V, expires: real)

  /** `cache.get(key)` of one key, at time `now`. */
  function Get<V>(entry: Option<Entry<V>>, now: real): Option<V> {
    if entry.Some? && now < entry.value.expires then Some(entry.value.value) else None
  }

  /** `cache.set(key, value, ttl)` */
  function Set<V>(value: V, now: real, ttl: real): Option<Entry<V>> {
    Some(Entry(value, now + ttl))
  }

  /** `cache.add(key, value, ttl)`: sets the key only when it is not there. */
  function Add<V>(entry: Option<Entry<V>>, value: V, now: real, ttl: real): Option<Entry<V>> {
    if Get(entry, now).Some? then entry else Set(value, now, ttl)
  }
}
