/**
 * CacheObject<T>: a cached payload with the instant it was cached and its
 * invalidation time. The net45 and netcore451 copies of the class (and the
 * inline copy in net45's PersistentObjectCache.cs) are the same code, so one
 * model stands for all three.
 *
 * DateTime and TimeSpan are integer ticks of 100 ns. The current time,
 * DateTime.Now in the source, is the parameter `now`.
 */
module CacheObjects {
  import opened Optional

  const TicksPerSecond: int := 10_000_000

  /** The three [DataMember] properties; a null CachedValue is None. */
  datatype CacheObject<V> = CacheObject(cachedValue: Option<V>, cachedDateTime: int, invalidationTime: int)

  /** CachedDateTime.Add(InvalidationTime).CompareTo(now) >= 0: the expiry instant itself is still fresh. */
  predicate IsFresh<V>(o: CacheObject<V>, now: int) {
    o.cachedDateTime + o.invalidationTime >= now
  }

  /** The Value property: the payload while fresh, null once stale. */
  function Value<V>(o: CacheObject<V>, now: int): (r: Option<V>)
    ensures r.Some? <==> o.cachedValue.Some? && IsFresh(o, now)
    ensures r.Some? ==> r == o.cachedValue
  {
    if IsFresh(o, now) then o.cachedValue else None
  }

  /** GetValue(ignoreInvalidationTime): the payload regardless of age when asked to ignore it, else Value. */
  function GetValue<V>(o: CacheObject<V>, ignoreInvalidationTime: bool, now: int): (r: Option<V>)
    ensures r.Some? <==> o.cachedValue.Some? && (ignoreInvalidationTime || IsFresh(o, now))
    ensures r.Some? ==> r == o.cachedValue
  {
    if ignoreInvalidationTime then o.cachedValue else Value(o, now)
  }

  /** `e != null ? e.GetValue(ignore) : null`, the test the engine applies to every entry it finds. */
  function Usable<V>(e: Option<CacheObject<V>>, ignoreInvalidationTime: bool, now: int): (r: Option<V>)
    ensures r.Some? <==> e.Some? && e.value.cachedValue.Some? && (ignoreInvalidationTime || IsFresh(e.value, now))
    ensures r.Some? ==> r == e.value.cachedValue
  {
    if e.Some? then GetValue(e.value, ignoreInvalidationTime, now) else None
  }

  /** Ignoring the invalidation time returns the stored payload at every instant. */
  lemma IgnoringTimeReturnsPayload<V>(o: CacheObject<V>, now: int)
    ensures GetValue(o, true, now) == o.cachedValue
  {
  }

  /** GetValue() with its default argument is the Value property. */
  lemma DefaultArgumentIsValue<V>(o: CacheObject<V>, now: int)
    ensures GetValue(o, false, now) == Value(o, now)
  {
  }

  /** Once stale, an entry stays stale and yields null at every later instant. */
  lemma StaleStaysStale<V>(o: CacheObject<V>, now: int, later: int)
    requires !IsFresh(o, now) && now <= later
    ensures !IsFresh(o, later) && GetValue(o, false, later) == None
  {
  }

  /** With a zero invalidation time an entry is fresh exactly up to the instant it was cached. */
  lemma ZeroInvalidationTime<V>(o: CacheObject<V>, now: int)
    requires o.invalidationTime == 0
    ensures IsFresh(o, now) <==> now <= o.cachedDateTime
  {
  }

  /** A null payload is never returned as a value, whatever the flag. */
  lemma NullPayloadYieldsNull<V>(o: CacheObject<V>, ignoreInvalidationTime: bool, now: int)
    requires o.cachedValue.None?
    ensures GetValue(o, ignoreInvalidationTime, now) == None && Value(o, now) == None
  {
  }
}
