/**
 * The GSON handler: reads a JSON file into a value after a chain of argument
 * and file checks, and saves a value with the atomic write protocol. The
 * GSON codec itself is a pair of functions supplied by the caller; the
 * adapters argument is the type-adapter map the handler registers with it.
 */
module GsonHandler {
  import opened Wrappers
  import opened Paths
  import opened Files
  import opened Adapters
  import opened AtomicFile

  type GsonAdapters = map<ClassName, object>

  /**
   * getJsonObject. `readFails` says whether opening or reading the file
   * throws an IOException; a JsonSyntaxException is `decode` giving None.
   * Every failure yields null (None), without any change to the disk.
   */
  function GetJsonObject<T>(
    disk: Disk, file: Option<Path>, clazz: Option<ClassName>, adapters: Option<GsonAdapters>,
    decode: (Content, ClassName, GsonAdapters) -> Option<T>, readFails: bool): (r: Option<T>)
    ensures file.None? || clazz.None? || adapters.None? ==> r.None?
    ensures file.Some? && !disk.IsFile(file.value) ==> r.None?
    ensures readFails ==> r.None?
    ensures r.Some? ==> decode(disk.files[file.value], clazz.value, adapters.value) == r
    ensures file.Some? && clazz.Some? && adapters.Some? && disk.IsFile(file.value) && !readFails ==>
              r == decode(disk.files[file.value], clazz.value, adapters.value)
  {
    if file.None? || clazz.None? || adapters.None? then None
    else if !disk.Exists(file.value) || !disk.IsFile(file.value) then None
    else if readFails then None
    else decode(disk.files[file.value], clazz.value, adapters.value)
  }

  /**
   * saveJsonObject: a null file, object or adapters argument changes nothing;
   * otherwise the encoding is written by the atomic write protocol.
   */
  method SaveJsonObject<T>(
    fs: FileSystem, file: Option<Path>, obj: Option<T>, adapters: Option<GsonAdapters>,
    encode: (T, GsonAdapters) -> Content) returns (outcome: SaveOutcome)
    modifies fs
    ensures file.None? || obj.None? || adapters.None? ==> outcome == Rejected && fs.disk == old(fs.disk)
    ensures file.Some? && obj.Some? && adapters.Some? ==>
              outcome != Rejected &&
              WriteEffect(old(fs.disk), fs.disk, file.value, encode(obj.value, adapters.value), outcome)
  {
    if file.None? || obj.None? || adapters.None? {
      return Rejected;
    }
    outcome := AtomicWrite(fs, file.value, encode(obj.value, adapters.value));
  }
}
