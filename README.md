# PersistentObjectCache, modelled in Dafny

PersistentObjectCache is a two-tier object cache for .NET 4.5 and WinRT
(netcore451). A process-wide registry (`Objects`, a dictionary from key to
cache entry) sits in front of a per-key file store (`IsoStorage<T>`). Each
entry (`CacheObject<T>`) is fresh until its cached time plus its invalidation
time. This project models the cache engine's bookkeeping, the entry's
freshness rule and the store's file operations, and proves what the engine
promises across sequences of calls.

- `optional.dfy`, module `Optional`: `Option<T>`. `None` stands for C#'s
  null and for `default(T)`.
- `cache_object.dfy`, module `CacheObjects`: `CacheObject<T>` as a datatype,
  with `Value` and `GetValue` as functions of the current time. Times and
  durations are integer ticks (100 ns). The clock reading is the parameter
  `now`. The two `CacheObject.cs` files and the copy inside net45's
  `PersistentObjectCache.cs` are the same code, so one model stands for all
  three.
- `iso_storage.dfy`, module `Storage`: the `StorageType` enum and its
  folders, `AppendExt`, and the file system as a map from (folder, file name)
  to file content. Class `IsoStorage` has the `StorageType` setter and
  `SaveAsync`, `LoadAsync`, `Delete` and `DeleteAll` as methods on that map.
  Each method is proved equal to a pure function (`SavedTo`, `LoadFrom`,
  `DeletedFrom`, `AllDeletedFrom`). `DeleteAll` keeps the source's loop over
  the listed files. WinRT's `DeleteAsync` has the same effect as net45's
  `Delete`. WinRT's `DeleteAllAsync` is the same loop, skipped when listing
  the folder fails.
- `persistent_object_cache.dfy`, module `ObjectCache`: each engine operation
  is a step function on the whole state (registry, default invalidation time
  and files). Class `PersistentObjectCache` holds the static fields. Its
  methods follow the C# statement by statement and are proved equal to the
  step functions. The two engines share this code. net45 has no
  `ContainsAsync` or `HasExpired`, and it deletes through `Delete` and
  `DeleteAll`, which is `ClearAllCache` with `listingFailed` false.
- `cache_properties.dfy`, module `CacheProperties`: lemmas over several
  calls. They cover round trips, the registry quirks, and that a cleared key
  stays unreadable through any later calls on the same storage type that do
  not set its file again. A call on another storage type can revive it,
  because the registry is shared (`ClearedKeyRevivedByOtherType`).

A `StorageType` outside the enum (`Undefined`) makes the `IsoStorage`
constructor throw. The engine threads that exception as `Reply.Threw` at the
point where the C# constructs its `IsoStorage`. So a memory hit is still
answered, and `ClearCache`/`ClearAllCache` have already changed the registry
when they throw. A file whose load raises the `InvalidOperationException`
that the engine catches is `Blob.Unreadable`.

Where one might expect otherwise, the model follows the code:
- `SetObjectAsync` with a null value is not a no-op. It builds a non-null
  `CacheObject` with a null payload, saves it and adds it to the registry.
  `ContainsAsync` then reports the key (`SetNullIsContained`).
- Freshness is inclusive (`>=`). With a zero invalidation time the value is
  still readable at the instant it was set. It is absent only from the next
  tick on (`ZeroTimeExpires`).
- A disk hit in `GetObjectAsync` returns before it inserts anything. Only a
  miss or a stale load is added to the registry, and that may be a null
  mapping (`ColdStartReload`, `NeverSetKey`).
- `ContainsAsync` checks for a non-null mapping, not only for the key.
  `ClearCache` removes only a non-null mapping, so a null mapping survives
  `SetObjectAsync` and `ClearCache` (`NullMappingPersists`).
- Key-to-file naming is not collision-free. The keys `a` and `a.cache.json`
  share one file (`AppendExtCollision`). As a function on strings,
  `AppendExt` is injective only on names that do not already end in
  `.cache.json` (`AppendExtInjective`). The real file systems add further
  collisions that the model does not have (see "Left out").
- The registry is shared by every storage type. A value set under one type
  is answered from memory under another (`RegistrySharedByStorageTypes`),
  even for a key just cleared under the type it is read with
  (`ClearedKeyRevivedByOtherType`).
- A negative invalidation time is accepted. The model uses unbounded
  integers and imposes no sign.

## Model

| member | source | states |
|---|---|---|
| CacheObjects.Value | PersistentObjectCache.net45/CacheObject.cs:44-47 | the value is non-null exactly when the payload is non-null and cached time + invalidation time >= now, and then it is the payload |
| CacheObjects.GetValue | PersistentObjectCache.net45/CacheObject.cs:53-56 | non-null exactly when the payload is non-null and either the time is ignored or the entry is fresh; a non-null result is the payload |
| CacheObjects.Usable | PersistentObjectCache.netcore451/PersistentObjectCache.cs:58 | the engine's `e != null && e.GetValue(ignore) != null` test: non-null only for a non-null entry with a non-null, usable payload |
| CacheObjects.IgnoringTimeReturnsPayload | PersistentObjectCache.netcore451/CacheObject.cs:49-52 | GetValue(true) is the payload at every instant |
| CacheObjects.DefaultArgumentIsValue | PersistentObjectCache.net45/PersistentObjectCache.cs:170-173 | GetValue with its default argument equals Value |
| CacheObjects.StaleStaysStale | PersistentObjectCache.netcore451/CacheObject.cs:42 | freshness is monotone: stale at now means stale, and GetValue(false) null, at every later instant |
| CacheObjects.ZeroInvalidationTime | PersistentObjectCache.netcore451/CacheObject.cs:40-43 | with a zero invalidation time the entry is fresh exactly when now <= cached time |
| CacheObjects.NullPayloadYieldsNull | PersistentObjectCache.netcore451/CacheObject.cs:40-52 | a null payload gives null from Value and from GetValue for both flag values |
| Storage.FolderOf | PersistentObjectCache.netcore451/IsoStorage.cs:74-95 | the setter's switch gives a folder exactly for the three defined storage types |
| Storage.FoldersDistinct | PersistentObjectCache.net45/IsoStorage.cs:84-94 | distinct defined storage types select distinct folders, so each is its own namespace |
| Storage.CacheEndingIsJsonEnding | PersistentObjectCache.net45/IsoStorage.cs:173 | a name ending in ".cache.json" ends in ".json", so the nested test in AppendExt reduces to one |
| Storage.AppendExt | PersistentObjectCache.net45/IsoStorage.cs:171-174 | the result always ends in ".cache.json"; a name already ending so is unchanged, any other gets the suffix appended |
| Storage.AppendExtIdempotent | PersistentObjectCache.netcore451/IsoStorage.cs:191-194 | applying AppendExt twice is the same as once |
| Storage.AppendExtOfJsonName | PersistentObjectCache.net45/IsoStorage.cs:173 | "a.json" becomes "a.json.cache.json" |
| Storage.AppendExtInjective | PersistentObjectCache.netcore451/IsoStorage.cs:193 | two keys that do not end in ".cache.json" and share a file name are equal |
| Storage.AppendExtCollision | PersistentObjectCache.netcore451/IsoStorage.cs:191-194 | the distinct keys "a" and "a.cache.json" map to the same file |
| Storage.SavedTo | PersistentObjectCache.net45/IsoStorage.cs:106-114 | null data leaves the files unchanged; otherwise exactly the key's file in the folder is created or replaced by the entry |
| Storage.LoadFrom | PersistentObjectCache.net45/IsoStorage.cs:121-135 | a missing file loads as null, an unreadable one as the failure, a stored entry as itself |
| Storage.DeletedFrom | PersistentObjectCache.net45/IsoStorage.cs:140-145 | exactly the key's file is gone and every other file keeps its content |
| Storage.DeleteOneMore | PersistentObjectCache.net45/IsoStorage.cs:152-155 | deleting one more listed ".cache.json" name from the folder equals one more Delete of that name, the step of DeleteAll's loop |
| Storage.DeleteListedIsDeleteAll | PersistentObjectCache.net45/IsoStorage.cs:151-155 | deleting every listed ".cache.json" name of the folder gives exactly AllDeletedFrom with a successful listing |
| Storage.AllDeletedFrom | PersistentObjectCache.netcore451/IsoStorage.cs:126-132 | exactly the ".cache.json" files of the folder are removed, other names and folders kept; nothing changes when listing failed |
| Storage.LoadAfterSave | PersistentObjectCache.netcore451/IsoStorage.cs:170-178 | a load after a save of the same name returns the saved entry |
| Storage.SaveReplaces | PersistentObjectCache.netcore451/IsoStorage.cs:107-109 | a second save of a name replaces the first rather than adding to it |
| Storage.LoadMissingIsNull | PersistentObjectCache.netcore451/IsoStorage.cs:179-183 | loading a name with no file gives null, not a failure |
| Storage.DeleteAbsentIsNoOp | PersistentObjectCache.netcore451/IsoStorage.cs:116-122 | deleting a name without a file changes nothing, and after a delete the name loads as null |
| Storage.LoadAfterDeleteAll | PersistentObjectCache.net45/IsoStorage.cs:149-156 | after DeleteAll every key of the folder loads as null and every key of another folder loads as before |
| Storage.IsoStorage.constructor | PersistentObjectCache.net45/IsoStorage.cs:57 | the default constructor selects the Local storage type and folder |
| Storage.IsoStorage.SetStorageType | PersistentObjectCache.net45/IsoStorage.cs:77-99 | the type is always recorded; a defined type selects its folder, an undefined one throws with the folder unchanged |
| Storage.IsoStorage.SaveAsync | PersistentObjectCache.netcore451/IsoStorage.cs:103-110 | the files afterwards are SavedTo of the files before |
| Storage.IsoStorage.LoadAsync | PersistentObjectCache.netcore451/IsoStorage.cs:170-185 | returns LoadFrom of the current files, null for a missing file |
| Storage.IsoStorage.Delete | PersistentObjectCache.net45/IsoStorage.cs:140-145 | the files afterwards are DeletedFrom of the files before |
| Storage.IsoStorage.DeleteAll | PersistentObjectCache.net45/IsoStorage.cs:149-156 | the loop over the listed ".cache.json" files leaves exactly AllDeletedFrom of the files before |
| Storage.IsoStorage.DeleteAllAsync | PersistentObjectCache.netcore451/IsoStorage.cs:126-147 | the same deletions, and none at all when listing the folder fails |
| ObjectCache.TryGetValue | PersistentObjectCache.netcore451/PersistentObjectCache.cs:172-177 | non-null exactly when the key is present with a non-null mapping, and then it is that mapping |
| ObjectCache.AddIfAbsent | PersistentObjectCache.net45/PersistentObjectCache.cs:88 | the key is present afterwards; every existing mapping, null or not, is kept; only an absent key receives the entry |
| ObjectCache.NewEntry | PersistentObjectCache.netcore451/PersistentObjectCache.cs:142 | the new entry yields its value at every instant when age is ignored, and by age exactly up to now plus the given time (or the default), inclusive, and null after that |
| ObjectCache.DiskEntry | PersistentObjectCache.netcore451/PersistentObjectCache.cs:62-68 | the load with its caught failure read as null: non-null exactly when the key's file holds an entry, and then it is that entry |
| ObjectCache.GetStep | PersistentObjectCache.netcore451/PersistentObjectCache.cs:55-72 | files untouched; a usable memory entry answers without a load; on a memory miss a usable loaded entry is returned with no change, any other loaded entry (stale, or null for a missing file) is added for an absent key and null returned, and a failed load is a miss with no change; the registry changes in no other case; an undefined type throws only after a memory miss |
| ObjectCache.SetStep | PersistentObjectCache.netcore451/PersistentObjectCache.cs:140-146 | returns its input; the key's file then loads as the new entry, no other file changes; the registry gains the entry only when the key is absent, and existing mappings, even null, are kept |
| ObjectCache.ContainsStep | PersistentObjectCache.netcore451/PersistentObjectCache.cs:80-101 | true exactly when memory holds a non-null entry or the disk holds an entry with a non-null payload, at any age; a disk hit after a memory miss adds the loaded entry for an absent key, and the registry changes in no other case |
| ObjectCache.HasExpiredStep | PersistentObjectCache.netcore451/PersistentObjectCache.cs:109-130 | false exactly when memory or disk holds a fresh entry with a non-null payload; a fresh disk hit after a memory miss adds the loaded entry for an absent key, and the registry changes in no other case |
| ObjectCache.ClearStep | PersistentObjectCache.netcore451/PersistentObjectCache.cs:152-157 | the key has no non-null mapping afterwards, a null mapping stays, other keys are kept; the key's file loads as null and no other file changes |
| ObjectCache.ClearAllStep | PersistentObjectCache.netcore451/PersistentObjectCache.cs:162-166 | the registry is empty, every key of the folder loads as null unless listing failed, and only ".cache.json" files of that folder are removed |
| ObjectCache.PersistentObjectCache.constructor | PersistentObjectCache.netcore451/PersistentObjectCache.cs:34-38 | the registry starts empty and the default invalidation time at five minutes |
| ObjectCache.PersistentObjectCache.SetDefaultInvalidationTime | PersistentObjectCache.net45/PersistentObjectCache.cs:45-48 | the default is replaced and neither the registry nor any file changes |
| ObjectCache.PersistentObjectCache.Add | PersistentObjectCache.net45/PersistentObjectCache.cs:66 | Dictionary.Add requires an absent key, so every Add in the engine is proved guarded and no key is ever added twice |
| ObjectCache.PersistentObjectCache.OpenStorage | PersistentObjectCache.net45/PersistentObjectCache.cs:64 | a fresh IsoStorage on the shared file system, bound to the type's folder, or the setter's exception for an undefined type |
| ObjectCache.PersistentObjectCache.GetObjectAsync | PersistentObjectCache.net45/PersistentObjectCache.cs:57-74 | result and new state are those of GetStep |
| ObjectCache.PersistentObjectCache.ContainsAsync | PersistentObjectCache.netcore451/PersistentObjectCache.cs:80-101 | result and new state are those of ContainsStep |
| ObjectCache.PersistentObjectCache.HasExpired | PersistentObjectCache.netcore451/PersistentObjectCache.cs:109-130 | result and new state are those of HasExpiredStep |
| ObjectCache.PersistentObjectCache.SetObjectAsync | PersistentObjectCache.net45/PersistentObjectCache.cs:84-90 | result and new state are those of SetStep |
| ObjectCache.PersistentObjectCache.ClearCache | PersistentObjectCache.net45/PersistentObjectCache.cs:96-101 | new state is that of ClearStep |
| ObjectCache.PersistentObjectCache.ClearAllCache | PersistentObjectCache.net45/PersistentObjectCache.cs:106-110 | new state is that of ClearAllStep |
| CacheProperties.SetThenGet | Tests/PersistentObjectCache.net45.Tests/PersistentObjectCacheTests.cs:40-44 | when memory holds no usable entry, Get after Set returns the value while the new entry is fresh or age is ignored, and null otherwise |
| CacheProperties.SetThenGetAtOnce | Tests/PersistentObjectCache.net45.Tests/PersistentObjectCacheTests.cs:40-44 | setting a new key with the default time and reading it at once returns the value |
| CacheProperties.SetKeepsHotEntry | PersistentObjectCache.net45/PersistentObjectCache.cs:88 | Set never replaces a usable memory entry: Get keeps returning the old payload, whatever was set |
| CacheProperties.ZeroTimeExpires | PersistentObjectCache.netcore451/CacheObject.cs:42 | a value set with zero invalidation time reads as null one tick later but is still returned when age is ignored |
| CacheProperties.SetThenContains | PersistentObjectCache.netcore451/PersistentObjectCache.cs:82-93 | after setting a non-null value, Contains is true at every later instant, whatever the registry held |
| CacheProperties.SetNullIsContained | PersistentObjectCache.netcore451/PersistentObjectCache.cs:142-144 | setting null still writes a file and a registry entry, so Contains is true while Get returns null |
| CacheProperties.ColdStartReload | PersistentObjectCache.net45/PersistentObjectCache.cs:64-65 | with an empty registry over the same files a usable value is read from disk and the registry stays empty |
| CacheProperties.RegistrySharedByStorageTypes | PersistentObjectCache.netcore451/PersistentObjectCache.cs:57-58 | a value set under one storage type is returned from memory under any other |
| CacheProperties.ClearedKeyRevivedByOtherType | PersistentObjectCache.netcore451/PersistentObjectCache.cs:140-157 | after ClearCache under one type, a Set under another type leaves the first type's file deleted yet makes the key readable under the first type |
| CacheProperties.NeverSetKey | Tests/PersistentObjectCache.net45.Tests/PersistentObjectCacheTests.cs:54-55 | a key with neither mapping nor file reads as null and becomes a null mapping; Contains is false and HasExpired true, both without change |
| CacheProperties.NullMappingPersists | PersistentObjectCache.netcore451/PersistentObjectCache.cs:140-157 | a null mapping is left in place by Set and by ClearCache, and only ClearAllCache removes it; with it in place, a fresh non-null value set is still read back, from disk, with no change |
| CacheProperties.LoadFailureIsAMiss | PersistentObjectCache.netcore451/PersistentObjectCache.cs:66-69 | for a key with no non-null mapping, absent or mapped to null, a failed load answers null, false and true, and changes nothing |
| CacheProperties.ClearAllWipesStorageType | PersistentObjectCache.net45/PersistentObjectCache.cs:106-110 | after ClearAllCache every key of that storage type reads as null, and another type answers as after a restart |
| CacheProperties.ForgottenIsAbsent | PersistentObjectCache.net45/PersistentObjectCache.cs:59-73 | a key with no non-null mapping and no file reads as null, is not contained and has expired |
| CacheProperties.ApplyKeepsForgotten | PersistentObjectCache.netcore451/PersistentObjectCache.cs:55-166 | every call on the same storage type except a set of the same file keeps such a key unknown |
| CacheProperties.RunKeepsForgotten | PersistentObjectCache.netcore451/PersistentObjectCache.cs:55-166 | any sequence of such calls, all on that storage type, keeps the key unknown |
| CacheProperties.ClearCacheThenRun | Tests/PersistentObjectCache.net45.Tests/PersistentObjectCacheTests.cs:46-48 | after ClearCache the key reads as null, not contained and expired, through any calls on the same storage type that do not set its file again |
| CacheProperties.ClearAllCacheThenRun | PersistentObjectCache.netcore451/PersistentObjectCache.cs:162-166 | after ClearAllCache every key of the storage type stays unreadable through any calls on the same storage type that do not set its file again |

## Left out

- Asynchrony and concurrency: the fire-and-forget `async void` of `SaveAsync`,
  `DeleteAsync` and `DeleteAllAsync`, and races on the shared registry. Every
  effect completes before the operation returns.
- Real file and folder access. This covers `FileStream`, the
  `Encoding.Unicode` chunked `ReadTextAsync`/`WriteTextAsync` loops, WinRT's
  `StorageFolder`/`FileIO`, `Environment.GetFolderPath` and
  `ApplicationData`. `PrependPath` and `Path.Combine` become the (folder,
  name) pair that keys the file map.
- JSON serialisation through Newtonsoft. A file holds the entry itself, so
  the serialiser is assumed to round-trip an entry, including its times.
- Which failures raise the `InvalidOperationException` that the engine
  catches is up to the serialiser and the platform. Such a file is
  `Unreadable`. Every other exception a load can raise propagates in the
  source and is not modelled.
- net45's `DeleteAll` throws when the Cache folder has never been created.
  The model treats every folder as existing.
- `DateTime.Now` is read once per operation. The source reads it again when
  it re-evaluates `GetValue` for the returned value, so an entry that expires
  between the two reads is not modelled. `DateTime.Add` throwing outside the
  `DateTime` range is not modelled either, because ticks are unbounded
  integers.
- The generic `(T)` casts and boxing to `object`: the model has one payload
  type per cache. `default(T)` of a value type is modelled as null.
- File names are compared exactly. NTFS and WinRT's `StorageFolder` compare
  them case-insensitively, so in the source the keys `Key` and `key` share
  one file, and a cold read of `key` finds what was set under `Key`. In the
  model they are two files.
- Keys are taken to be plain file names. net45 builds the path with
  `Path.Combine` (`IsoStorage.cs`:164), which returns a rooted key such as
  `C:\x` unchanged, so that key names one file outside the Cache folder and
  shared by every storage type; a key with a path separator points into a
  sub-folder that `SaveAsync` never creates (`IsoStorage.cs`:112). The model
  gives every key its own file in its storage type's folder, and
  `FoldersDistinct` holds only for such keys.
- A null key: `Objects.TryGetValue(null)` throws `ArgumentNullException`
  (netcore451 `PersistentObjectCache.cs`:175). Keys in the model are strings
  and cannot be null.
- `String.EndsWith` in `AppendExt` and `DeleteAll` is culture-sensitive in
  .NET. The model compares characters exactly.
- `ICacheObject` is only the interface of `Value` and `GetValue`. The
  `CacheObject` model covers it.
- `new IsoStorage(type)` is modelled as the default constructor followed by
  the `StorageType` setter, which has the same effect.
