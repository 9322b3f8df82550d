/**
 * GsonGet and JacksonGet: look a record up by id under a directory path.
 * Both name the file by plain concatenation, check that it exists, and let
 * their handler read and decode it; a null from the handler becomes empty.
 * Neither changes the filesystem.
 */
module GetOperations {
  import opened Wrappers
  import opened Paths
  import opened Files
  import opened Adapters
  import GsonHandler
  import JacksonHandler

  /** GsonGet.get: empty when nothing is at `path + id + ".json"`, otherwise what the GSON handler reads. */
  function GsonGet<T>(
    disk: Disk, id: Option<string>, path: Option<string>, clazz: Option<ClassName>,
    adapters: Option<GsonHandler.GsonAdapters>,
    decode: (Content, ClassName, GsonHandler.GsonAdapters) -> Option<T>, readFails: bool): (r: Option<T>)
    ensures !disk.Exists(ConcatJsonFile(path, id)) ==> r.None?
    ensures r.Some? ==> disk.IsFile(ConcatJsonFile(path, id)) && clazz.Some? && adapters.Some? && !readFails
    ensures r.Some? ==> r == decode(disk.files[ConcatJsonFile(path, id)], clazz.value, adapters.value)
    ensures disk.IsFile(ConcatJsonFile(path, id)) && clazz.Some? && adapters.Some? && !readFails ==>
              r == decode(disk.files[ConcatJsonFile(path, id)], clazz.value, adapters.value)
  {
    var target := ConcatJsonFile(path, id);
    if disk.Exists(target) then GsonHandler.GetJsonObject(disk, Some(target), clazz, adapters, decode, readFails)
    else None
  }

  /** JacksonGet.get: the same lookup through the Jackson handler and its modules. */
  function JacksonGet<T>(
    disk: Disk, id: Option<string>, path: Option<string>, clazz: Option<ClassName>,
    modules: Option<JacksonHandler.JacksonModules>,
    decode: (Content, ClassName, JacksonHandler.JacksonModules) -> Option<T>, readFails: bool): (r: Option<T>)
    ensures !disk.Exists(ConcatJsonFile(path, id)) ==> r.None?
    ensures r.Some? ==> disk.IsFile(ConcatJsonFile(path, id)) && clazz.Some? && modules.Some? && !readFails
    ensures r.Some? ==> r == decode(disk.files[ConcatJsonFile(path, id)], clazz.value, modules.value)
    ensures disk.IsFile(ConcatJsonFile(path, id)) && clazz.Some? && modules.Some? && !readFails ==>
              r == decode(disk.files[ConcatJsonFile(path, id)], clazz.value, modules.value)
  {
    var target := ConcatJsonFile(path, id);
    if disk.Exists(target) then JacksonHandler.GetJsonObject(disk, Some(target), clazz, modules, decode, readFails)
    else None
  }
}
