/**
 * GsonSave and JacksonSave: persist a value under its id in a directory.
 * GsonSave names the file by concatenation and validates nothing itself;
 * JacksonSave rejects a null object, a null or empty id and a null path, and
 * names the file with new File(path, id + ".json").
 */
module SaveOperations {
  import opened Wrappers
  import opened Paths
  import opened Files
  import opened Adapters
  import opened AtomicFile
  import GsonHandler
  import JacksonHandler
  import opened GetOperations

  /** GsonSave.save: hands `path + id + ".json"` and the object to the GSON handler (a null id names the file "null.json"). */
  method GsonSave<T>(
    fs: FileSystem, obj: Option<T>, id: Option<string>, path: Option<string>,
    adapters: Option<GsonHandler.GsonAdapters>, encode: (T, GsonHandler.GsonAdapters) -> Content)
    returns (outcome: SaveOutcome)
    modifies fs
    ensures obj.None? || adapters.None? ==> outcome == Rejected && fs.disk == old(fs.disk)
    ensures obj.Some? && adapters.Some? ==>
              outcome != Rejected &&
              WriteEffect(old(fs.disk), fs.disk, ConcatJsonFile(path, id), encode(obj.value, adapters.value), outcome)
  {
    outcome := GsonHandler.SaveJsonObject(fs, Some(ConcatJsonFile(path, id)), obj, adapters, encode);
  }

  /** The file JacksonSave writes, or None when its argument check rejects the call. */
  function JacksonSaveTarget<T>(obj: Option<T>, id: Option<string>, path: Option<string>): (target: Option<Path>)
    ensures target.None? <==> obj.None? || id.None? || id.value == "" || path.None?
    ensures target.Some? ==> target.value == ChildJsonFile(path.value, id.value)
  {
    if obj.None? || id.None? || id.value == "" || path.None? then None
    else Some(ChildJsonFile(path.value, id.value))
  }

  /** JacksonSave.save: rejected calls write nothing; otherwise the injected Jackson handler writes the child file with the modules unchanged. */
  method JacksonSave<T>(
    fs: FileSystem, obj: Option<T>, id: Option<string>, path: Option<string>,
    modules: Option<JacksonHandler.JacksonModules>, encode: (T, JacksonHandler.JacksonModules) -> Content)
    returns (outcome: SaveOutcome)
    modifies fs
    ensures JacksonSaveTarget(obj, id, path).None? || modules.None? ==> outcome == Rejected && fs.disk == old(fs.disk)
    ensures JacksonSaveTarget(obj, id, path).Some? && modules.Some? ==>
              outcome != Rejected &&
              WriteEffect(old(fs.disk), fs.disk, ChildJsonFile(path.value, id.value), encode(obj.value, modules.value), outcome)
  {
    var target := JacksonSaveTarget(obj, id, path);
    if target.None? {
      return Rejected;
    }
    outcome := JacksonHandler.SaveJsonObject(fs, target, obj, modules, encode);
  }

  /**
   * GsonSave and GsonGet name the same file, so once a save has written the
   * value, a get that can read the file decodes exactly that value back.
   */
  lemma GsonSaveThenGet<T>(
    before: Disk, after: Disk, x: T, id: Option<string>, path: Option<string>, clazz: ClassName,
    adapters: GsonHandler.GsonAdapters,
    encode: (T, GsonHandler.GsonAdapters) -> Content,
    decode: (Content, ClassName, GsonHandler.GsonAdapters) -> Option<T>)
    requires WriteEffect(before, after, ConcatJsonFile(path, id), encode(x, adapters), Written)
    requires decode(encode(x, adapters), clazz, adapters) == Some(x)
    ensures GsonGet(after, id, path, Some(clazz), Some(adapters), decode, false) == Some(x)
  {
    WriteIsAllOrNothing(before, after, ConcatJsonFile(path, id), encode(x, adapters), Written);
  }

  /**
   * When a separator sits between the directory path and the id (at the end
   * of the path or the start of the id), JacksonGet reads back what
   * JacksonSave wrote.
   */
  lemma JacksonSaveThenGet<T>(
    before: Disk, after: Disk, x: T, id: string, path: string, clazz: ClassName,
    modules: JacksonHandler.JacksonModules,
    encode: (T, JacksonHandler.JacksonModules) -> Content,
    decode: (Content, ClassName, JacksonHandler.JacksonModules) -> Option<T>)
    requires SeparatedSeam(path, id)
    requires WriteEffect(before, after, ChildJsonFile(path, id), encode(x, modules), Written)
    requires decode(encode(x, modules), clazz, modules) == Some(x)
    ensures JacksonGet(after, Some(id), Some(path), Some(clazz), Some(modules), decode, false) == Some(x)
  {
    NamingRulesAgree(path, id);
    WriteIsAllOrNothing(before, after, ChildJsonFile(path, id), encode(x, modules), Written);
  }

  /**
   * With no separator between the path and the id, JacksonSave writes
   * `path/id.json` while JacksonGet reads `path + id + ".json"`: a value
   * just saved is not found unless some other file already sat at the name
   * the get reads.
   */
  lemma JacksonSaveMissedByGet<T>(
    before: Disk, after: Disk, x: T, id: string, path: string, clazz: ClassName,
    modules: JacksonHandler.JacksonModules,
    encode: (T, JacksonHandler.JacksonModules) -> Content,
    decode: (Content, ClassName, JacksonHandler.JacksonModules) -> Option<T>, readFails: bool)
    requires !SeparatedSeam(path, id)
    requires !before.IsFile(ConcatJsonFile(Some(path), Some(id)))
    requires WriteEffect(before, after, ChildJsonFile(path, id), encode(x, modules), Written)
    ensures JacksonGet(after, Some(id), Some(path), Some(clazz), Some(modules), decode, readFails) == None
  {
    var read := ConcatJsonFile(Some(path), Some(id));
    NamingRulesAgree(path, id);
    WriteIsAllOrNothing(before, after, ChildJsonFile(path, id), encode(x, modules), Written);
    if read != TempPath(ChildJsonFile(path, id)) {
      assert At(after, read) == At(before, read);
    }
    assert !after.IsFile(read);
  }
}
