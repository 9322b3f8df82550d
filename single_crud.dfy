/**
 * SingleCRUD: a holder of one value, stored in one file named after the
 * holder's own id. It uses the default strategies: GsonGet to load, GsonSave
 * to save and NormalDelete to delete. All three are keyed by the holder's id
 * and path, never by the held value.
 */
module Single {
  import opened Wrappers
  import opened Paths
  import opened Files
  import opened Adapters
  import opened AtomicFile
  import opened GsonHandler
  import opened GetOperations
  import opened SaveOperations
  import opened DeleteOperation
  import Manager

  class SingleCRUD<T> {
    /** getID() */
    const id: string
    /** getPath() */
    const path: string
    /** getClazz() */
    const clazz: ClassName
    /** getTypeAdapterHashMap() */
    const adapters: GsonAdapters
    const fs: FileSystem
    /** The held value (the `object` field); None is null. */
    var obj: Option<T>
    /** Messages passed to log, oldest first. */
    var log: seq<string>

    constructor (id: string, path: string, clazz: ClassName, adapters: GsonAdapters, fs: FileSystem)
      ensures this.id == id && this.path == path && this.clazz == clazz && this.adapters == adapters
      ensures this.fs == fs
      ensures obj == None && log == []
    {
      this.id := id;
      this.path := path;
      this.clazz := clazz;
      this.adapters := adapters;
      this.fs := fs;
      obj := None;
      log := [];
    }

    /** The file GsonGet and GsonSave use: getPath() + getID() + ".json". */
    function DataFile(): Path
      reads this
    {
      ConcatJsonFile(Some(path), Some(id))
    }

    /** What a load that reads without an IOException yields on `disk`, given the GSON decoder. */
    function Stored(disk: Disk, decode: (Content, ClassName, GsonAdapters) -> Option<T>): (r: Option<T>)
      reads this
      ensures r.Some? ==> disk.IsFile(DataFile()) && r == decode(disk.files[DataFile()], clazz, adapters)
      ensures disk.IsFile(DataFile()) ==> r == decode(disk.files[DataFile()], clazz, adapters)
      ensures !disk.IsFile(DataFile()) ==> r.None?
    {
      GsonGet(disk, Some(id), Some(path), Some(clazz), Some(adapters), decode, false)
    }

    /** get: the held value as it is, without loading; a failure message is logged iff it is null. */
    method Get() returns (r: Option<T>)
      modifies this`log
      ensures r == obj
      ensures log == old(log) + (if obj.None? then [Manager.LoadFailure(id)] else [])
    {
      if obj.None? {
        log := log + [Manager.LoadFailure(id)];
      }
      r := obj;
    }

    /**
     * load: the previous value is discarded for what is stored under the
     * holder's id, or for null when nothing decodable is there or reading fails.
     */
    method Load(decode: (Content, ClassName, GsonAdapters) -> Option<T>)
      modifies this`obj
      ensures obj == Stored(fs.disk, decode) || obj.None?
      ensures !fs.disk.IsFile(DataFile()) ==> obj.None?
    {
      var readFails: bool :| true;
      obj := GsonGet(fs.disk, Some(id), Some(path), Some(clazz), Some(adapters), decode, readFails);
    }

    /** save: the held value is written to the holder's file; a null value writes nothing. */
    method Save(encode: (T, GsonAdapters) -> Content) returns (ghost outcome: SaveOutcome)
      modifies fs
      ensures obj.None? ==> fs.disk == old(fs.disk)
      ensures obj.Some? ==> outcome != Rejected && WriteEffect(old(fs.disk), fs.disk, DataFile(), encode(obj.value, adapters), outcome)
    {
      var result := GsonSave(fs, obj, Some(id), Some(path), Some(adapters), encode);
      outcome := result;
    }

    /** delete: removes new File(getPath(), getID() + ".json"), a file or an empty directory, and reports whether it did. */
    method Delete() returns (ok: bool)
      modifies fs
      ensures id == "" ==> !ok
      ensures !ok ==> fs.disk == old(fs.disk)
      ensures ok ==> old(fs.disk).Deletable(ChildJsonFile(path, id))
      ensures ok ==> fs.disk == old(fs.disk).Deleted(ChildJsonFile(path, id))
    {
      ok := NormalDelete(fs, Some(id), Some(path));
    }
  }

  /** A value that was saved, and that the codec reads back, is what the next successful load yields. */
  lemma SaveThenLoad<T>(holder: SingleCRUD<T>, before: Disk, after: Disk, x: T,
                        encode: (T, GsonAdapters) -> Content, decode: (Content, ClassName, GsonAdapters) -> Option<T>)
    requires WriteEffect(before, after, holder.DataFile(), encode(x, holder.adapters), Written)
    requires decode(encode(x, holder.adapters), holder.clazz, holder.adapters) == Some(x)
    ensures holder.Stored(after, decode) == Some(x)
  {
    GsonSaveThenGet(before, after, x, Some(holder.id), Some(holder.path), holder.clazz, holder.adapters,
                    encode, decode);
  }

  /**
   * Save writes getPath() + getID() + ".json" while delete removes
   * new File(getPath(), getID() + ".json"): a successful delete takes the
   * saved file away exactly when the path ends with a separator or the id
   * starts with one, and otherwise leaves it as it was.
   */
  lemma DeleteReachesSavedFile(path: string, id: string, before: Disk, after: Disk)
    requires ConcatJsonFile(Some(path), Some(id)) in before.files
    requires before.Deletable(ChildJsonFile(path, id)) && after == before.Deleted(ChildJsonFile(path, id))
    ensures ConcatJsonFile(Some(path), Some(id)) !in after.files <==> SeparatedSeam(path, id)
    ensures !SeparatedSeam(path, id) ==>
              after.files[ConcatJsonFile(Some(path), Some(id))] == before.files[ConcatJsonFile(Some(path), Some(id))]
  {
    NamingRulesAgree(path, id);
  }
}
