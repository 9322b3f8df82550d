/**
 * The Jackson handler: the same guard chain and atomic write protocol as the
 * GSON handler, configured by the set of Jackson modules the adapters hold
 * (CRUDAdapters.getModules) instead of GSON type adapters.
 */
module JacksonHandler {
  import opened Wrappers
  import opened Paths
  import opened Files
  import opened Adapters
  import opened AtomicFile

  type JacksonModules = set<Module>

  /**
   * getJsonObject. `readFails` says whether ObjectMapper.readValue throws an
   * IOException while reading; a malformed document is `decode` giving None.
   */
  function GetJsonObject<T>(
    disk: Disk, file: Option<Path>, clazz: Option<ClassName>, modules: Option<JacksonModules>,
    decode: (Content, ClassName, JacksonModules) -> Option<T>, readFails: bool): (r: Option<T>)
    ensures file.None? || clazz.None? || modules.None? ==> r.None?
    ensures file.Some? && !disk.IsFile(file.value) ==> r.None?
    ensures readFails ==> r.None?
    ensures r.Some? ==> decode(disk.files[file.value], clazz.value, modules.value) == r
    ensures file.Some? && clazz.Some? && modules.Some? && disk.IsFile(file.value) && !readFails ==>
              r == decode(disk.files[file.value], clazz.value, modules.value)
  {
    if file.None? || clazz.None? || modules.None? then None
    else if !disk.Exists(file.value) || !disk.IsFile(file.value) then None
    else if readFails then None
    else decode(disk.files[file.value], clazz.value, modules.value)
  }

  /** saveJsonObject: null arguments change nothing; otherwise the atomic write protocol. */
  method SaveJsonObject<T>(
    fs: FileSystem, file: Option<Path>, obj: Option<T>, modules: Option<JacksonModules>,
    encode: (T, JacksonModules) -> Content) returns (outcome: SaveOutcome)
    modifies fs
    ensures file.None? || obj.None? || modules.None? ==> outcome == Rejected && fs.disk == old(fs.disk)
    ensures file.Some? && obj.Some? && modules.Some? ==>
              outcome != Rejected &&
              WriteEffect(old(fs.disk), fs.disk, file.value, encode(obj.value, modules.value), outcome)
  {
    if file.None? || obj.None? || modules.None? {
      return Rejected;
    }
    outcome := AtomicWrite(fs, file.value, encode(obj.value, modules.value));
  }
}
