/**
 * PersistentObjectCache: the process-wide registry of cache entries over the
 * file store. Each operation is given twice: as a step function on the whole
 * state (registry, default invalidation time and files), which the lemmas
 * reason about, and as a method of the PersistentObjectCache class that does
 * what the C# does, step by step, and is proved to follow the step function.
 *
 * The net45 and netcore451 engines are the same code except that net45 has
 * no ContainsAsync and HasExpired and deletes through the synchronous
 * IsoStorage.Delete and DeleteAll.
 */
module ObjectCache {
  import opened Optional
  import opened CacheObjects
  import opened Storage

  /** new TimeSpan(0, 5, 0): five minutes. */
  const DefaultInvalidationTime: int := 5 * 60 * TicksPerSecond

  /** The Objects dictionary; a key may be mapped to null. */
  type Registry<V> = map<string, Option<CacheObject<V>>>

  /** How an operation ends: with a value, or with the exception an undefined StorageType raises. */
  datatype Reply<X> = Returned(value: X) | Threw

  /** The engine's static fields together with the files it writes. */
  datatype Cache<V> = Cache(objects: Registry<V>, defaultInvalidationTime: int, files: Files<V>)

  /** What one operation returns and the state it leaves. */
  datatype Step<X, V> = Step(reply: Reply<X>, after: Cache<V>)

  /** TryGetValue: the mapping of a key, where a missing key and a null mapping both give null. */
  function TryGetValue<V>(objects: Registry<V>, key: string): (r: Option<CacheObject<V>>)
    ensures r.Some? <==> key in objects && objects[key].Some?
    ensures r.Some? ==> r == objects[key]
  {
    if key in objects then objects[key] else None
  }

  /** `if (!Objects.ContainsKey(key)) Objects.Add(key, e)`: an existing mapping, even a null one, is kept. */
  function AddIfAbsent<V>(objects: Registry<V>, key: string, e: Option<CacheObject<V>>): (r: Registry<V>)
    ensures r.Keys == objects.Keys + {key}
    ensures forall k :: k in objects ==> r[k] == objects[k]
    ensures key !in objects ==> r[key] == e
  {
    if key in objects then objects else objects[key := e]
  }

  /** The entry a load of the key's file yields, with a failed load read as null. */
  function DiskEntry<V>(files: Files<V>, folder: Folder, key: string): (r: Option<CacheObject<V>>)
    ensures r.Some? <==> (folder, AppendExt(key)) in files && files[(folder, AppendExt(key))].Serialized?
    ensures r.Some? ==> r.value == files[(folder, AppendExt(key))].entry
  {
    match LoadFrom(files, folder, key)
    case Loaded(e) => e
    case LoadFailed => None
  }

  /** The entry for the key in the folder of `t`, null when `t` is undefined. */
  function DiskEntryOf<V>(files: Files<V>, t: StorageType, key: string): Option<CacheObject<V>> {
    if t.Undefined? then None else DiskEntry(files, FolderOf(t).value, key)
  }

  /** The entry SetObjectAsync builds: created now, valid for `time`, or for the default when none is given. */
  function NewEntry<V>(value: Option<V>, time: Option<int>, defaultTime: int, now: int): (e: CacheObject<V>)
    // the value is readable, whatever its age is taken to be, at every instant
    ensures forall at :: GetValue(e, true, at) == value
    // and by age until `time` (or the default) after now, inclusive, and never after that
    ensures forall at :: GetValue(e, false, at)
              == if at <= now + (if time.Some? then time.value else defaultTime) then value else None
  {
    CacheObject(value, now, if time.Some? then time.value else defaultTime)
  }

  /** GetObjectAsync<T>(key, ignoreInvalidationTime, storageType). */
  function GetStep<V>(c: Cache<V>, key: string, ignore: bool, t: StorageType, now: int): (s: Step<Option<V>, V>)
    // reading never writes the store, never changes an existing mapping, and adds at most the key
    ensures s.after.files == c.files && s.after.defaultInvalidationTime == c.defaultInvalidationTime
    ensures s.after.objects.Keys <= c.objects.Keys + {key}
    ensures forall k :: k in c.objects ==> k in s.after.objects && s.after.objects[k] == c.objects[k]
    // a usable memory entry is answered without a load
    ensures Usable(TryGetValue(c.objects, key), ignore, now).Some?
            ==> s == Step(Returned(Usable(TryGetValue(c.objects, key), ignore, now)), c)
    // the undefined storage type throws only once the memory lookup has missed
    ensures s.reply.Threw? <==> Usable(TryGetValue(c.objects, key), ignore, now).None? && t.Undefined?
    ensures s.reply.Threw? ==> s.after == c
    // a value comes from a usable memory or disk entry, and finding one adds nothing to the registry
    ensures s.reply.Returned? && s.reply.value.Some? ==>
              s.after == c &&
              (s.reply.value == Usable(TryGetValue(c.objects, key), ignore, now) ||
               s.reply.value == Usable(DiskEntryOf(c.files, t, key), ignore, now))
    // the registry changes only on a complete miss, by mapping the absent key to what was loaded
    ensures s.after != c ==>
              s.reply == Returned(None) && key !in c.objects && !t.Undefined? &&
              s.after.objects == c.objects[key := DiskEntry(c.files, FolderOf(t).value, key)]
    // on a memory miss a load decides: a usable entry is returned, and any other entry, even
    // a stale one or a null, is added to the registry if the key is absent
    ensures Usable(TryGetValue(c.objects, key), ignore, now).None? && !t.Undefined? &&
            LoadFrom(c.files, FolderOf(t).value, key).Loaded? ==>
              var e := DiskEntry(c.files, FolderOf(t).value, key);
              s == if Usable(e, ignore, now).Some? then Step(Returned(Usable(e, ignore, now)), c)
                   else Step(Returned(None), c.(objects := AddIfAbsent(c.objects, key, e)))
    // a load that fails is a miss that leaves everything as it was
    ensures Usable(TryGetValue(c.objects, key), ignore, now).None? && !t.Undefined? &&
            LoadFrom(c.files, FolderOf(t).value, key).LoadFailed?
            ==> s == Step(Returned(None), c)
  {
    var cached := Usable(TryGetValue(c.objects, key), ignore, now);
    if cached.Some? then Step(Returned(cached), c)
    else
      match FolderOf(t)
      case None => Step(Threw, c)
      case Some(folder) =>
        match LoadFrom(c.files, folder, key)
        case LoadFailed => Step(Returned(None), c)
        case Loaded(e) =>
          var stored := Usable(e, ignore, now);
          if stored.Some? then Step(Returned(stored), c)
          else Step(Returned(None), c.(objects := AddIfAbsent(c.objects, key, e)))
  }

  /** SetObjectAsync<T>(key, value, time, storageType). */
  function SetStep<V>(c: Cache<V>, key: string, value: Option<V>, time: Option<int>, t: StorageType, now: int): (s: Step<Option<V>, V>)
    // the input comes back unchanged, unless the storage type throws before anything is written
    ensures s.reply == if t.Undefined? then Threw else Returned(value)
    ensures t.Undefined? ==> s.after == c
    ensures s.after.defaultInvalidationTime == c.defaultInvalidationTime
    // the key's file now holds the new entry, even for a null value
    ensures !t.Undefined? ==>
              LoadFrom(s.after.files, FolderOf(t).value, key)
              == Loaded(Some(NewEntry(value, time, c.defaultInvalidationTime, now)))
    // no other file changes or appears
    ensures s.after.files.Keys <= c.files.Keys + (if t.Undefined? then {} else {(FolderOf(t).value, AppendExt(key))})
    ensures forall p :: p in c.files && !(!t.Undefined? && p == (FolderOf(t).value, AppendExt(key)))
              ==> p in s.after.files && s.after.files[p] == c.files[p]
    // the registry gains the entry only if the key is absent; an existing mapping, even null, is kept
    ensures !t.Undefined? ==> s.after.objects.Keys == c.objects.Keys + {key}
    ensures forall k :: k in c.objects ==> s.after.objects[k] == c.objects[k]
    ensures !t.Undefined? && key !in c.objects ==>
              s.after.objects[key] == Some(NewEntry(value, time, c.defaultInvalidationTime, now))
  {
    var entry := NewEntry(value, time, c.defaultInvalidationTime, now);
    match FolderOf(t)
    case None => Step(Threw, c)
    case Some(folder) =>
      Step(Returned(value), c.(files := SavedTo(c.files, folder, key, Some(entry)),
                               objects := AddIfAbsent(c.objects, key, Some(entry))))
  }

  /** ContainsAsync<T>(key, storageType): existence regardless of the invalidation time. */
  function ContainsStep<V>(c: Cache<V>, key: string, t: StorageType, now: int): (s: Step<bool, V>)
    ensures s.after.files == c.files && s.after.defaultInvalidationTime == c.defaultInvalidationTime
    ensures s.after.objects.Keys <= c.objects.Keys + {key}
    ensures forall k :: k in c.objects ==> k in s.after.objects && s.after.objects[k] == c.objects[k]
    // any non-null memory entry answers true, stale or not, and without a load
    ensures TryGetValue(c.objects, key).Some? ==> s == Step(Returned(true), c)
    ensures s.reply.Threw? <==> TryGetValue(c.objects, key).None? && t.Undefined?
    ensures s.reply.Threw? ==> s.after == c
    // true exactly when memory holds a non-null entry (even with a null payload), or the disk
    // holds an entry with a non-null payload, at any age
    ensures s.reply == Returned(true) <==>
              TryGetValue(c.objects, key).Some? ||
              Usable(DiskEntryOf(c.files, t, key), true, now).Some?
    // only a disk hit for an absent key adds to the registry, and such a hit always does
    ensures s.after != c ==>
              s.reply == Returned(true) && key !in c.objects && !t.Undefined? &&
              s.after.objects == c.objects[key := DiskEntry(c.files, FolderOf(t).value, key)]
    ensures TryGetValue(c.objects, key).None? && !t.Undefined? && s.reply == Returned(true) ==>
              s.after.objects == AddIfAbsent(c.objects, key, DiskEntry(c.files, FolderOf(t).value, key))
  {
    if TryGetValue(c.objects, key).Some? then Step(Returned(true), c)
    else
      match FolderOf(t)
      case None => Step(Threw, c)
      case Some(folder) =>
        match LoadFrom(c.files, folder, key)
        case LoadFailed => Step(Returned(false), c)
        case Loaded(e) =>
          if Usable(e, true, now).Some? then Step(Returned(true), c.(objects := AddIfAbsent(c.objects, key, e)))
          else Step(Returned(false), c)
  }

  /** HasExpired<T>(key, storageType): false exactly when a fresh entry with a value is found. */
  function HasExpiredStep<V>(c: Cache<V>, key: string, t: StorageType, now: int): (s: Step<bool, V>)
    ensures s.after.files == c.files && s.after.defaultInvalidationTime == c.defaultInvalidationTime
    ensures s.after.objects.Keys <= c.objects.Keys + {key}
    ensures forall k :: k in c.objects ==> k in s.after.objects && s.after.objects[k] == c.objects[k]
    ensures Usable(TryGetValue(c.objects, key), false, now).Some? ==> s == Step(Returned(false), c)
    ensures s.reply.Threw? <==> Usable(TryGetValue(c.objects, key), false, now).None? && t.Undefined?
    ensures s.reply.Threw? ==> s.after == c
    // not expired exactly when memory or disk holds a fresh entry with a non-null payload
    ensures s.reply == Returned(false) <==>
              Usable(TryGetValue(c.objects, key), false, now).Some? ||
              Usable(DiskEntryOf(c.files, t, key), false, now).Some?
    // only a fresh disk hit for an absent key adds to the registry, and such a hit always does
    ensures s.after != c ==>
              s.reply == Returned(false) && key !in c.objects && !t.Undefined? &&
              s.after.objects == c.objects[key := DiskEntry(c.files, FolderOf(t).value, key)]
    ensures Usable(TryGetValue(c.objects, key), false, now).None? && !t.Undefined? && s.reply == Returned(false) ==>
              s.after.objects == AddIfAbsent(c.objects, key, DiskEntry(c.files, FolderOf(t).value, key))
  {
    if Usable(TryGetValue(c.objects, key), false, now).Some? then Step(Returned(false), c)
    else
      match FolderOf(t)
      case None => Step(Threw, c)
      case Some(folder) =>
        match LoadFrom(c.files, folder, key)
        case LoadFailed => Step(Returned(true), c)
        case Loaded(e) =>
          if Usable(e, false, now).Some? then Step(Returned(false), c.(objects := AddIfAbsent(c.objects, key, e)))
          else Step(Returned(true), c)
  }

  /** ClearCache(key, storageType). */
  function ClearStep<V>(c: Cache<V>, key: string, t: StorageType): (s: Step<(), V>)
    ensures s.reply == if t.Undefined? then Threw else Returned(())
    ensures s.after.defaultInvalidationTime == c.defaultInvalidationTime
    // a non-null mapping is removed; a null mapping stays, and nothing else in memory changes
    ensures TryGetValue(s.after.objects, key).None?
    ensures key in c.objects && c.objects[key].None? ==> s.after.objects == c.objects
    ensures forall k :: k != key ==> (k in s.after.objects <==> k in c.objects)
    ensures forall k :: k in s.after.objects ==> k in c.objects && s.after.objects[k] == c.objects[k]
    // the key's file is deleted, even when the key was not in memory, and no other file is touched
    ensures !t.Undefined? ==> LoadFrom(s.after.files, FolderOf(t).value, key) == Loaded(None)
    ensures t.Undefined? ==> s.after.files == c.files
    ensures forall p :: p in s.after.files ==> p in c.files && s.after.files[p] == c.files[p]
    ensures forall p :: p in c.files && !(!t.Undefined? && p == (FolderOf(t).value, AppendExt(key))) ==> p in s.after.files
  {
    var objects := if TryGetValue(c.objects, key).Some? then c.objects - {key} else c.objects;
    match FolderOf(t)
    case None => Step(Threw, c.(objects := objects))
    case Some(folder) => Step(Returned(()), c.(objects := objects, files := DeletedFrom(c.files, folder, key)))
  }

  /** ClearAllCache(storageType); listingFailed is WinRT's failure to list the folder, never the case on net45. */
  function ClearAllStep<V>(c: Cache<V>, t: StorageType, listingFailed: bool): (s: Step<(), V>)
    ensures s.reply == if t.Undefined? then Threw else Returned(())
    ensures s.after.objects == map[] && s.after.defaultInvalidationTime == c.defaultInvalidationTime
    ensures !t.Undefined? && !listingFailed ==> forall k :: LoadFrom(s.after.files, FolderOf(t).value, k) == Loaded(None)
    ensures forall p :: p in s.after.files ==> p in c.files && s.after.files[p] == c.files[p]
    ensures forall p :: p in c.files && (t.Undefined? || listingFailed || p.0 != FolderOf(t).value || !EndsWith(p.1, FileEnding))
              ==> p in s.after.files
  {
    match FolderOf(t)
    case None => Step(Threw, c.(objects := map[]))
    case Some(folder) =>
      Step(Returned(()), c.(objects := map[], files := AllDeletedFrom(c.files, folder, listingFailed)))
  }

  /**
   * The static class PersistentObjectCache: the Objects dictionary and the
   * default invalidation time, over the file system its IsoStorage instances
   * write to.
   */
  class PersistentObjectCache<V> {
    var objects: Registry<V>
    var defaultInvalidationTime: int
    const disk: FileSystem<V>

    /** The whole state, as the step functions see it. */
    function Model(): Cache<V>
      reads this, disk
    {
      Cache(objects, defaultInvalidationTime, disk.files)
    }

    /** The static constructor: an empty registry and a default invalidation time of five minutes. */
    constructor(disk: FileSystem<V>)
      ensures objects == map[] && defaultInvalidationTime == DefaultInvalidationTime && this.disk == disk
    {
      this.disk := disk;
      objects := map[];
      defaultInvalidationTime := DefaultInvalidationTime;
    }

    /** SetDefaultInvalidationTime: later SetObjectAsync calls use `time`; stored entries keep theirs. */
    method SetDefaultInvalidationTime(time: int)
      modifies this
      ensures defaultInvalidationTime == time && objects == old(objects)
    {
      defaultInvalidationTime := time;
    }

    /** Objects.Add, which throws on a key already present: every call site must rule that out. */
    method Add(key: string, e: Option<CacheObject<V>>)
      requires key !in objects
      modifies this
      ensures objects == old(objects)[key := e] && defaultInvalidationTime == old(defaultInvalidationTime)
    {
      objects := objects[key := e];
    }

    /** new IsoStorage<...>(storageType): ok is false where the StorageType setter throws. */
    method OpenStorage(t: StorageType) returns (iso: IsoStorage<V>, ok: bool)
      ensures fresh(iso) && iso.fs == disk
      ensures ok <==> !t.Undefined?
      ensures ok ==> iso.folder == FolderOf(t).value
    {
      iso := new IsoStorage(disk);
      ok := iso.SetStorageType(t);
    }

    method GetObjectAsync(key: string, ignoreInvalidationTime: bool, t: StorageType, now: int) returns (r: Reply<Option<V>>)
      modifies this
      ensures r == GetStep(old(Model()), key, ignoreInvalidationTime, t, now).reply
      ensures Model() == GetStep(old(Model()), key, ignoreInvalidationTime, t, now).after
    {
      var cacheObject := TryGetValue(objects, key);
      if cacheObject.Some? && GetValue(cacheObject.value, ignoreInvalidationTime, now).Some? {
        return Returned(GetValue(cacheObject.value, ignoreInvalidationTime, now));
      }
      var iso, ok := OpenStorage(t);
      if !ok {
        return Threw;
      }
      var loaded := iso.LoadAsync(key);
      match loaded
      case LoadFailed =>
        return Returned(None);
      case Loaded(isoCachedObject) =>
        if isoCachedObject.Some? && GetValue(isoCachedObject.value, ignoreInvalidationTime, now).Some? {
          return Returned(GetValue(isoCachedObject.value, ignoreInvalidationTime, now));
        }
        if key !in objects {
          Add(key, isoCachedObject);
        }
        return Returned(None);
    }

    method ContainsAsync(key: string, t: StorageType, now: int) returns (r: Reply<bool>)
      modifies this
      ensures r == ContainsStep(old(Model()), key, t, now).reply
      ensures Model() == ContainsStep(old(Model()), key, t, now).after
    {
      var cacheObject := TryGetValue(objects, key);
      if cacheObject.Some? {
        return Returned(true);
      }
      var iso, ok := OpenStorage(t);
      if !ok {
        return Threw;
      }
      var loaded := iso.LoadAsync(key);
      match loaded
      case LoadFailed =>
        return Returned(false);
      case Loaded(isoCachedObject) =>
        if isoCachedObject.Some? && GetValue(isoCachedObject.value, true, now).Some? {
          if key !in objects {
            Add(key, isoCachedObject);
          }
          return Returned(true);
        }
        return Returned(false);
    }

    method HasExpired(key: string, t: StorageType, now: int) returns (r: Reply<bool>)
      modifies this
      ensures r == HasExpiredStep(old(Model()), key, t, now).reply
      ensures Model() == HasExpiredStep(old(Model()), key, t, now).after
    {
      var cacheObject := TryGetValue(objects, key);
      if cacheObject.Some? && GetValue(cacheObject.value, false, now).Some? {
        return Returned(false);
      }
      var iso, ok := OpenStorage(t);
      if !ok {
        return Threw;
      }
      var loaded := iso.LoadAsync(key);
      match loaded
      case LoadFailed =>
        return Returned(true);
      case Loaded(isoCachedObject) =>
        if isoCachedObject.Some? && GetValue(isoCachedObject.value, false, now).Some? {
          if key !in objects {
            Add(key, isoCachedObject);
          }
          return Returned(false);
        }
        return Returned(true);
    }

    method SetObjectAsync(key: string, value: Option<V>, time: Option<int>, t: StorageType, now: int) returns (r: Reply<Option<V>>)
      modifies this, disk
      ensures r == SetStep(old(Model()), key, value, time, t, now).reply
      ensures Model() == SetStep(old(Model()), key, value, time, t, now).after
    {
      var cacheObject := NewEntry(value, time, defaultInvalidationTime, now);
      var iso, ok := OpenStorage(t);
      if !ok {
        return Threw;
      }
      iso.SaveAsync(key, Some(cacheObject));
      if key !in objects {
        Add(key, Some(cacheObject));
      }
      return Returned(value);
    }

    method ClearCache(key: string, t: StorageType) returns (r: Reply<()>)
      modifies this, disk
      ensures r == ClearStep(old(Model()), key, t).reply
      ensures Model() == ClearStep(old(Model()), key, t).after
    {
      var cacheObject := TryGetValue(objects, key);
      if cacheObject.Some? {
        objects := objects - {key};
      }
      var iso, ok := OpenStorage(t);
      if !ok {
        return Threw;
      }
      iso.Delete(key);
      return Returned(());
    }

    method ClearAllCache(t: StorageType, listingFailed: bool) returns (r: Reply<()>)
      modifies this, disk
      ensures r == ClearAllStep(old(Model()), t, listingFailed).reply
      ensures Model() == ClearAllStep(old(Model()), t, listingFailed).after
    {
      objects := map[];
      var iso, ok := OpenStorage(t);
      if !ok {
        return Threw;
      }
      iso.DeleteAllAsync(listingFailed);
      return Returned(());
    }
  }
}
