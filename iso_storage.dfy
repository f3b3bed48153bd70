/**
 * IsoStorage<T>: the per-key file store under the cache. Both platform
 * variants keep one file per key, named by AppendExt, in a folder chosen by
 * the StorageType. Folders and files are an abstract map from (folder, file
 * name) to the file's content; the JSON text of a file is its CacheObject
 * itself, or Unreadable for a file whose load fails.
 */
module Storage {
  import opened Optional
  import opened CacheObjects

  /** The StorageType enum; Undefined is any other value a cast to the enum can produce. */
  datatype StorageType = Local | Temporary | Roaming | Undefined

  /**
   * The storage folders: LocalApplicationData, the system drive's Temp and
   * ApplicationData (each with a Cache sub-folder) on net45, the
   * ApplicationData Local, Temporary and Roaming folders on WinRT.
   */
  datatype Folder = LocalFolder | TemporaryFolder | RoamingFolder

  /** The StorageType setter's switch: the folder of a known type, and None where it throws. */
  function FolderOf(t: StorageType): (r: Option<Folder>)
    ensures r.None? <==> t.Undefined?
  {
    match t
    case Local => Some(LocalFolder)
    case Temporary => Some(TemporaryFolder)
    case Roaming => Some(RoamingFolder)
    case Undefined => None
  }

  /** Each known storage type has its own folder, so the same key can hold different files in each. */
  lemma FoldersDistinct(t1: StorageType, t2: StorageType)
    requires !t1.Undefined? && !t2.Undefined? && t1 != t2
    ensures FolderOf(t1) != FolderOf(t2)
  {
  }

  const FileEnding: string := ".cache.json"
  const JsonEnding: string := ".json"

  /** String.EndsWith, compared character by character. */
  predicate EndsWith(s: string, suffix: string) {
    |suffix| <= |s| && s[|s| - |suffix|..] == suffix
  }

  /** A name ending in ".cache.json" ends in ".json", so AppendExt's outer test never decides alone. */
  lemma CacheEndingIsJsonEnding(s: string)
    requires EndsWith(s, FileEnding)
    ensures EndsWith(s, JsonEnding)
  {
  }

  /** AppendExt: the file name of a key, which always ends in ".cache.json". */
  function AppendExt(fileName: string): (r: string)
    ensures EndsWith(r, FileEnding)
    ensures EndsWith(fileName, FileEnding) ==> r == fileName
    ensures !EndsWith(fileName, FileEnding) ==> r == fileName + FileEnding
  {
    if EndsWith(fileName, JsonEnding) then
      if EndsWith(fileName, FileEnding) then fileName else fileName + FileEnding
    else
      fileName + FileEnding
  }

  /** AppendExt is idempotent. */
  lemma AppendExtIdempotent(fileName: string)
    ensures AppendExt(AppendExt(fileName)) == AppendExt(fileName)
  {
  }

  /** A name ending in ".json" but not ".cache.json" still gets the suffix appended. */
  lemma AppendExtOfJsonName()
    ensures AppendExt("a.json") == "a.json.cache.json"
  {
  }

  /** Two keys without the suffix never share a file. */
  lemma AppendExtInjective(a: string, b: string)
    requires !EndsWith(a, FileEnding) && !EndsWith(b, FileEnding)
    requires AppendExt(a) == AppendExt(b)
    ensures a == b
  {
  }

  /** The key "a" and the key "a.cache.json" share one file. */
  lemma AppendExtCollision()
    ensures "a" != "a.cache.json" && AppendExt("a") == AppendExt("a.cache.json")
  {
  }

  /** The content of a file: a serialised entry, or text whose load fails. */
  datatype Blob<V> = Serialized(entry: CacheObject<V>) | Unreadable

  type Files<V> = map<(Folder, string), Blob<V>>

  /** The outcome of LoadAsync: the entry (null for a missing file), or the failure the engine catches. */
  datatype LoadResult<V> = Loaded(value: Option<CacheObject<V>>) | LoadFailed

  /** SaveAsync's effect: null data writes nothing; otherwise the key's file is created or replaced. */
  function SavedTo<V>(files: Files<V>, folder: Folder, fileName: string, data: Option<CacheObject<V>>): (r: Files<V>)
    ensures data.None? ==> r == files
    ensures data.Some? ==> r.Keys == files.Keys + {(folder, AppendExt(fileName))}
    ensures data.Some? ==> r[(folder, AppendExt(fileName))] == Serialized(data.value)
    ensures forall p :: p in files && p != (folder, AppendExt(fileName)) ==> r[p] == files[p]
  {
    if data.None? then files else files[(folder, AppendExt(fileName)) := Serialized(data.value)]
  }

  /** LoadAsync's result: a missing file gives null, an unreadable one the failure. */
  function LoadFrom<V>(files: Files<V>, folder: Folder, fileName: string): (r: LoadResult<V>)
    ensures (folder, AppendExt(fileName)) !in files ==> r == Loaded(None)
    ensures r == LoadFailed <==> (folder, AppendExt(fileName)) in files && files[(folder, AppendExt(fileName))].Unreadable?
    ensures (folder, AppendExt(fileName)) in files && files[(folder, AppendExt(fileName))].Serialized?
            ==> r == Loaded(Some(files[(folder, AppendExt(fileName))].entry))
  {
    var path := (folder, AppendExt(fileName));
    if path !in files then Loaded(None)
    else match files[path]
      case Serialized(e) => Loaded(Some(e))
      case Unreadable => LoadFailed
  }

  /** Delete's effect: the key's file is gone, nothing else changes, and an absent file changes nothing. */
  function DeletedFrom<V>(files: Files<V>, folder: Folder, fileName: string): (r: Files<V>)
    ensures r.Keys == files.Keys - {(folder, AppendExt(fileName))}
    ensures forall p :: p in r ==> r[p] == files[p]
  {
    files - {(folder, AppendExt(fileName))}
  }

  /** The files left when the given names are deleted from one folder. */
  function WithoutNames<V>(files: Files<V>, folder: Folder, names: set<string>): Files<V> {
    map p | p in files && !(p.0 == folder && p.1 in names) :: files[p]
  }

  /** One more listed name deleted is one more Delete: the step of DeleteAll's loop. */
  lemma DeleteOneMore<V>(files: Files<V>, folder: Folder, names: set<string>, n: string)
    requires EndsWith(n, FileEnding)
    ensures WithoutNames(files, folder, names + {n}) == DeletedFrom(WithoutNames(files, folder, names), folder, n)
  {
  }

  /** Deleting every listed ".cache.json" name of the folder is DeleteAll's effect. */
  lemma DeleteListedIsDeleteAll<V>(files: Files<V>, folder: Folder)
    ensures WithoutNames(files, folder, set p | p in files && p.0 == folder && EndsWith(p.1, FileEnding) :: p.1)
            == AllDeletedFrom(files, folder, false)
  {
  }

  /** DeleteAll's effect: every ".cache.json" file of the folder goes, unless listing the folder failed. */
  function AllDeletedFrom<V>(files: Files<V>, folder: Folder, listingFailed: bool): (r: Files<V>)
    ensures listingFailed ==> r == files
    ensures !listingFailed ==> forall p :: p in r <==> p in files && !(p.0 == folder && EndsWith(p.1, FileEnding))
    ensures forall p :: p in r ==> r[p] == files[p]
  {
    if listingFailed then files
    else map p | p in files && !(p.0 == folder && EndsWith(p.1, FileEnding)) :: files[p]
  }

  /** A save is read back by the next load of the same name. */
  lemma LoadAfterSave<V>(files: Files<V>, folder: Folder, fileName: string, e: CacheObject<V>)
    ensures LoadFrom(SavedTo(files, folder, fileName, Some(e)), folder, fileName) == Loaded(Some(e))
  {
  }

  /** A second save replaces the first: the load sees only the newer entry. */
  lemma SaveReplaces<V>(files: Files<V>, folder: Folder, fileName: string, e1: CacheObject<V>, e2: CacheObject<V>)
    ensures SavedTo(SavedTo(files, folder, fileName, Some(e1)), folder, fileName, Some(e2))
            == SavedTo(files, folder, fileName, Some(e2))
  {
  }

  /** A load of a name that has no file gives null, not a failure. */
  lemma LoadMissingIsNull<V>(files: Files<V>, folder: Folder, fileName: string)
    requires (folder, AppendExt(fileName)) !in files
    ensures LoadFrom(files, folder, fileName) == Loaded(None)
  {
  }

  /** Deleting a name with no file changes nothing; after a delete a load gives null. */
  lemma DeleteAbsentIsNoOp<V>(files: Files<V>, folder: Folder, fileName: string)
    ensures (folder, AppendExt(fileName)) !in files ==> DeletedFrom(files, folder, fileName) == files
    ensures LoadFrom(DeletedFrom(files, folder, fileName), folder, fileName) == Loaded(None)
  {
  }

  /** After DeleteAll no key of that folder loads anything, and other folders load as before. */
  lemma LoadAfterDeleteAll<V>(files: Files<V>, folder: Folder, other: Folder, fileName: string)
    requires other != folder
    ensures LoadFrom(AllDeletedFrom(files, folder, false), folder, fileName) == Loaded(None)
    ensures LoadFrom(AllDeletedFrom(files, folder, false), other, fileName) == LoadFrom(files, other, fileName)
  {
  }

  /** The file system: the content of every folder, shared by all IsoStorage instances. */
  class FileSystem<V> {
    var files: Files<V>

    constructor(files: Files<V>)
      ensures this.files == files
    {
      this.files := files;
    }
  }

  /** An IsoStorage<T> bound to one folder of the file system. */
  class IsoStorage<V> {
    var storageType: StorageType
    var folder: Folder
    const fs: FileSystem<V>

    /** The default constructor, IsoStorage() : this(StorageType.Local). */
    constructor(fs: FileSystem<V>)
      ensures storageType == Local && folder == LocalFolder && this.fs == fs
    {
      this.fs := fs;
      storageType := Local;
      folder := LocalFolder;
    }

    /**
     * The StorageType setter: the type is recorded first, then the folder is
     * chosen; an undefined type throws (ok is false) with the folder unchanged.
     */
    method SetStorageType(t: StorageType) returns (ok: bool)
      modifies this
      ensures storageType == t
      ensures ok <==> !t.Undefined?
      ensures folder == if ok then FolderOf(t).value else old(folder)
    {
      storageType := t;
      match t
      case Local => folder := LocalFolder; ok := true;
      case Temporary => folder := TemporaryFolder; ok := true;
      case Roaming => folder := RoamingFolder; ok := true;
      case Undefined => ok := false;
    }

    /** SaveAsync: null data is ignored; otherwise the file is created or replaced. */
    method SaveAsync(fileName: string, data: Option<CacheObject<V>>)
      modifies fs
      ensures fs.files == SavedTo(old(fs.files), folder, fileName, data)
    {
      if data.None? {
        return;
      }
      var path := (folder, AppendExt(fileName));
      if path in fs.files {
        fs.files := fs.files - {path};
      }
      fs.files := fs.files[path := Serialized(data.value)];
    }

    /** LoadAsync: the stored entry, null for a missing file, or the failure of an unreadable one. */
    method LoadAsync(fileName: string) returns (r: LoadResult<V>)
      ensures r == LoadFrom(fs.files, folder, fileName)
      ensures (folder, AppendExt(fileName)) !in fs.files ==> r == Loaded(None)
    {
      var path := (folder, AppendExt(fileName));
      if path !in fs.files {
        return Loaded(None);
      }
      match fs.files[path]
      case Serialized(e) => r := Loaded(Some(e));
      case Unreadable => r := LoadFailed;
    }

    /** Delete (DeleteAsync on WinRT): removes the file if it exists. */
    method Delete(fileName: string)
      modifies fs
      ensures fs.files == DeletedFrom(old(fs.files), folder, fileName)
    {
      var path := (folder, AppendExt(fileName));
      if path in fs.files {
        fs.files := fs.files - {path};
      }
    }

    /** DeleteAll (net45): lists the folder and deletes every file ending in ".cache.json", one by one. */
    method DeleteAll()
      modifies fs
      ensures fs.files == AllDeletedFrom(old(fs.files), folder, false)
    {
      var cacheFiles := set p | p in fs.files && p.0 == folder && EndsWith(p.1, FileEnding) :: p.1;
      var remaining := cacheFiles;
      while remaining != {}
        invariant remaining <= cacheFiles
        invariant fs.files == WithoutNames(old(fs.files), folder, cacheFiles - remaining)
        decreases remaining
      {
        var name :| name in remaining;
        Delete(name);
        remaining := remaining - {name};
      }
    }

    /** DeleteAllAsync (WinRT): the same deletions, none at all when listing the folder fails. */
    method DeleteAllAsync(listingFailed: bool)
      modifies fs
      ensures fs.files == AllDeletedFrom(old(fs.files), folder, listingFailed)
    {
      if !listingFailed {
        DeleteAll();
      }
    }
  }
}
