/**
 * Properties of sequences of cache operations: the round trips the cache
 * exists for, the quirks of its registry (Set never replaces a mapping, a
 * null mapping outlives Set and ClearCache, the registry is shared by all
 * storage types), and that a cleared key stays unreadable until it is set
 * again, whatever else happens in between on the same storage type.
 */
module CacheProperties {
  import opened Optional
  import opened CacheObjects
  import opened Storage
  import opened ObjectCache

  /** Set then Get returns the value while the entry is fresh (or age is ignored), unless memory already answered. */
  lemma SetThenGet<V>(c: Cache<V>, key: string, value: Option<V>, time: Option<int>, t: StorageType,
                      setAt: int, ignore: bool, now: int)
    requires !t.Undefined?
    requires Usable(TryGetValue(c.objects, key), ignore, now).None?
    ensures var e := NewEntry(value, time, c.defaultInvalidationTime, setAt);
            GetStep(SetStep(c, key, value, time, t, setAt).after, key, ignore, t, now).reply
            == Returned(if ignore || IsFresh(e, now) then value else None)
  {
  }

  /** A key set with no time given and read back at once returns the value, as the round-trip test expects. */
  lemma SetThenGetAtOnce<V>(c: Cache<V>, key: string, value: V, t: StorageType, now: int)
    requires !t.Undefined? && c.defaultInvalidationTime >= 0
    requires key !in c.objects
    ensures GetStep(SetStep(c, key, Some(value), None, t, now).after, key, false, t, now).reply == Returned(Some(value))
  {
  }

  /** Set does not replace a usable memory entry: Get keeps returning the old payload, whatever was set. */
  lemma SetKeepsHotEntry<V>(c: Cache<V>, key: string, value: Option<V>, time: Option<int>, t: StorageType,
                            setAt: int, ignore: bool, now: int)
    requires !t.Undefined?
    requires Usable(TryGetValue(c.objects, key), ignore, now).Some?
    ensures GetStep(SetStep(c, key, value, time, t, setAt).after, key, ignore, t, now).reply
            == Returned(c.objects[key].value.cachedValue)
  {
  }

  /** A zero invalidation time makes the value unreadable one tick later, but it is still there when age is ignored. */
  lemma ZeroTimeExpires<V>(c: Cache<V>, key: string, value: V, t: StorageType, setAt: int, now: int)
    requires !t.Undefined? && setAt < now
    requires TryGetValue(c.objects, key).None?
    ensures GetStep(SetStep(c, key, Some(value), Some(0), t, setAt).after, key, false, t, now).reply == Returned(None)
    ensures GetStep(SetStep(c, key, Some(value), Some(0), t, setAt).after, key, true, t, now).reply == Returned(Some(value))
  {
  }

  /** Contains ignores age: after setting a non-null value it is true at every later instant. */
  lemma SetThenContains<V>(c: Cache<V>, key: string, value: V, time: Option<int>, t: StorageType,
                                              setAt: int, now: int)
    requires !t.Undefined?
    ensures ContainsStep(SetStep(c, key, Some(value), time, t, setAt).after, key, t, now).reply == Returned(true)
  {
  }

  /** Set(key, null) still writes a file and a registry entry, so Contains reports the key. */
  lemma SetNullIsContained<V>(c: Cache<V>, key: string, time: Option<int>, t: StorageType, setAt: int, now: int)
    requires !t.Undefined? && key !in c.objects
    ensures LoadFrom(SetStep(c, key, None, time, t, setAt).after.files, FolderOf(t).value, key).value.Some?
    ensures ContainsStep(SetStep(c, key, None, time, t, setAt).after, key, t, now).reply == Returned(true)
    ensures GetStep(SetStep(c, key, None, time, t, setAt).after, key, true, t, now).reply == Returned(None)
  {
  }

  /** After a restart (empty registry, same files) the value is read from disk, and the hit is not cached. */
  lemma ColdStartReload<V>(c: Cache<V>, key: string, value: V, time: Option<int>, t: StorageType,
                           setAt: int, defaultTime: int, ignore: bool, now: int)
    requires !t.Undefined?
    requires ignore || IsFresh(NewEntry(Some(value), time, c.defaultInvalidationTime, setAt), now)
    ensures var restarted := Cache(map[], defaultTime, SetStep(c, key, Some(value), time, t, setAt).after.files);
            GetStep(restarted, key, ignore, t, now) == Step(Returned(Some(value)), restarted)
  {
  }

  /** The registry is not split by storage type: a value set under one type is read from memory under another. */
  lemma RegistrySharedByStorageTypes<V>(c: Cache<V>, key: string, value: V, time: Option<int>, t1: StorageType,
                                        t2: StorageType, setAt: int, ignore: bool, now: int)
    requires !t1.Undefined? && key !in c.objects
    requires ignore || IsFresh(NewEntry(Some(value), time, c.defaultInvalidationTime, setAt), now)
    ensures GetStep(SetStep(c, key, Some(value), time, t1, setAt).after, key, ignore, t2, now).reply == Returned(Some(value))
  {
  }

  /**
   * The shared registry also revives a cleared key: a set under another storage type makes it
   * readable again under the cleared type, although that type's file stays deleted.
   */
  lemma ClearedKeyRevivedByOtherType<V>(c: Cache<V>, key: string, value: V, time: Option<int>, t: StorageType,
                                        other: StorageType, setAt: int, now: int)
    requires !t.Undefined? && !other.Undefined? && other != t
    requires key !in c.objects || c.objects[key].Some?
    ensures var c1 := SetStep(ClearStep(c, key, t).after, key, Some(value), time, other, setAt).after;
            (FolderOf(t).value, AppendExt(key)) !in c1.files &&
            GetStep(c1, key, true, t, now).reply == Returned(Some(value))
  {
  }

  /** A key never set and without a file reads as null, is not contained, has expired, and becomes a null mapping. */
  lemma NeverSetKey<V>(c: Cache<V>, key: string, ignore: bool, t: StorageType, now: int)
    requires !t.Undefined? && key !in c.objects && (FolderOf(t).value, AppendExt(key)) !in c.files
    ensures GetStep(c, key, ignore, t, now) == Step(Returned(None), c.(objects := c.objects[key := None]))
    ensures ContainsStep(c, key, t, now) == Step(Returned(false), c)
    ensures HasExpiredStep(c, key, t, now) == Step(Returned(true), c)
  {
  }

  /** A null mapping survives SetObjectAsync and ClearCache; the value set is then served from disk. */
  lemma NullMappingPersists<V>(c: Cache<V>, key: string, value: Option<V>, time: Option<int>, t: StorageType,
                               setAt: int, now: int)
    requires !t.Undefined? && key in c.objects && c.objects[key].None?
    ensures SetStep(c, key, value, time, t, setAt).after.objects == c.objects
    ensures var c1 := SetStep(c, key, value, time, t, setAt).after;
            IsFresh(NewEntry(value, time, c.defaultInvalidationTime, setAt), now) && value.Some?
            ==> GetStep(c1, key, false, t, now) == Step(Returned(value), c1)
    ensures ClearStep(c, key, t).after.objects == c.objects
    ensures ClearAllStep(c, t, false).after.objects == map[]
  {
  }

  /** A load failure answers null, false and true, and changes nothing. */
  lemma LoadFailureIsAMiss<V>(c: Cache<V>, key: string, ignore: bool, t: StorageType, now: int)
    requires !t.Undefined? && TryGetValue(c.objects, key).None?
    requires LoadFrom(c.files, FolderOf(t).value, key) == LoadFailed
    ensures GetStep(c, key, ignore, t, now) == Step(Returned(None), c)
    ensures ContainsStep(c, key, t, now) == Step(Returned(false), c)
    ensures HasExpiredStep(c, key, t, now) == Step(Returned(true), c)
  {
  }

  /** ClearAllCache leaves every key of its storage type unreadable, and other types read as after a restart. */
  lemma ClearAllWipesStorageType<V>(c: Cache<V>, key: string, ignore: bool, t: StorageType,
                                                       other: StorageType, now: int)
    requires !t.Undefined? && !other.Undefined? && other != t
    ensures GetStep(ClearAllStep(c, t, false).after, key, ignore, t, now).reply == Returned(None)
    ensures GetStep(ClearAllStep(c, t, false).after, key, ignore, other, now).reply
            == GetStep(c.(objects := map[]), key, ignore, other, now).reply
  {
  }

  /** One call of the public API, all on one storage type. */
  datatype Call<V> =
    | GetObject(key: string, ignore: bool, now: int)
    | SetObject(key: string, value: Option<V>, time: Option<int>, now: int)
    | Contains(key: string, now: int)
    | HasExpired(key: string, now: int)
    | ClearCache(key: string)
    | ClearAllCache(listingFailed: bool)
    | SetDefaultInvalidationTime(defaultTime: int)

  /** The state a call leaves, whether it returns or throws. */
  function Apply<V>(c: Cache<V>, call: Call<V>, t: StorageType): Cache<V> {
    match call
    case GetObject(k, ignore, now) => GetStep(c, k, ignore, t, now).after
    case SetObject(k, value, time, now) => SetStep(c, k, value, time, t, now).after
    case Contains(k, now) => ContainsStep(c, k, t, now).after
    case HasExpired(k, now) => HasExpiredStep(c, k, t, now).after
    case ClearCache(k) => ClearStep(c, k, t).after
    case ClearAllCache(listingFailed) => ClearAllStep(c, t, listingFailed).after
    case SetDefaultInvalidationTime(defaultTime) => c.(defaultInvalidationTime := defaultTime)
  }

  function Run<V>(c: Cache<V>, calls: seq<Call<V>>, t: StorageType): Cache<V>
    decreases |calls|
  {
    if calls == [] then c else Run(Apply(c, calls[0], t), calls[1..], t)
  }

  /** Neither memory nor the folder knows the key. */
  predicate Forgotten<V>(c: Cache<V>, folder: Folder, key: string) {
    (folder, AppendExt(key)) !in c.files && TryGetValue(c.objects, key).None?
  }

  /** A set of the key, or of another key with the same file name. */
  predicate Rewrites<V>(call: Call<V>, key: string) {
    call.SetObject? && AppendExt(call.key) == AppendExt(key)
  }

  /** A forgotten key reads as null, is not contained and has expired. */
  lemma ForgottenIsAbsent<V>(c: Cache<V>, key: string, ignore: bool, t: StorageType, now: int)
    requires !t.Undefined? && Forgotten(c, FolderOf(t).value, key)
    ensures GetStep(c, key, ignore, t, now).reply == Returned(None)
    ensures ContainsStep(c, key, t, now).reply == Returned(false)
    ensures HasExpiredStep(c, key, t, now).reply == Returned(true)
  {
  }

  /** Every call on the same storage type except a set of the same file keeps a key forgotten. */
  lemma ApplyKeepsForgotten<V>(c: Cache<V>, call: Call<V>, t: StorageType, key: string)
    requires !t.Undefined? && Forgotten(c, FolderOf(t).value, key) && !Rewrites(call, key)
    ensures Forgotten(Apply(c, call, t), FolderOf(t).value, key)
  {
  }

  lemma {:induction false} RunKeepsForgotten<V>(c: Cache<V>, calls: seq<Call<V>>, t: StorageType, key: string)
    requires !t.Undefined? && Forgotten(c, FolderOf(t).value, key)
    requires forall i :: 0 <= i < |calls| ==> !Rewrites(calls[i], key)
    ensures Forgotten(Run(c, calls, t), FolderOf(t).value, key)
    decreases |calls|
  {
    if calls != [] {
      ApplyKeepsForgotten(c, calls[0], t, key);
      RunKeepsForgotten(Apply(c, calls[0], t), calls[1..], t, key);
    }
  }

  /** After ClearCache(key), the key stays unreadable through any calls on the same storage type that do not set its file again. */
  lemma ClearCacheThenRun<V>(c: Cache<V>, key: string, calls: seq<Call<V>>, t: StorageType, ignore: bool, now: int)
    requires !t.Undefined?
    requires forall i :: 0 <= i < |calls| ==> !Rewrites(calls[i], key)
    ensures var c1 := Run(ClearStep(c, key, t).after, calls, t);
            GetStep(c1, key, ignore, t, now).reply == Returned(None) &&
            ContainsStep(c1, key, t, now).reply == Returned(false) &&
            HasExpiredStep(c1, key, t, now).reply == Returned(true)
  {
    RunKeepsForgotten(ClearStep(c, key, t).after, calls, t, key);
    ForgottenIsAbsent(Run(ClearStep(c, key, t).after, calls, t), key, ignore, t, now);
  }

  /** After ClearAllCache, every key stays unreadable through any calls on the same storage type that do not set its file again. */
  lemma ClearAllCacheThenRun<V>(c: Cache<V>, key: string, calls: seq<Call<V>>, t: StorageType, ignore: bool, now: int)
    requires !t.Undefined?
    requires forall i :: 0 <= i < |calls| ==> !Rewrites(calls[i], key)
    ensures var c1 := Run(ClearAllStep(c, t, false).after, calls, t);
            GetStep(c1, key, ignore, t, now).reply == Returned(None) &&
            ContainsStep(c1, key, t, now).reply == Returned(false) &&
            HasExpiredStep(c1, key, t, now).reply == Returned(true)
  {
    RunKeepsForgotten(ClearAllStep(c, t, false).after, calls, t, key);
    ForgottenIsAbsent(Run(ClearAllStep(c, t, false).after, calls, t), key, ignore, t, now);
  }
}
