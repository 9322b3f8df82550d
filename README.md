# AbstractCRUD, modelled in Dafny

AbstractCRUD is a small Java library that keeps identifiable records as one
JSON file per record in a directory. This project models its core:

- the JSON handlers (GSON and Jackson), with their argument guards and the
  atomic save protocol: write a temporary file, move it over the target, and
  delete the temporary file on failure;
- the get, save and delete operations that name a record's file;
- `CRUDAdapters`, the bag of GSON type adapters and Jackson modules;
- `CRUDManager`, the in-memory record collection backed by a store;
- `SingleCRUD`, a holder of one stored value;
- `CRUDRegistry`, which registers managers and loads them all;
- `OptionalTypeAdapter`, GSON support for `java.util.Optional`;
- the example record `Person` and its id.

The filesystem is a `FileSystem` object holding a `Disk` value: a map from
path to content plus a set of directories. Every step that can throw an
`IOException` (creating a directory, writing, moving, deleting) may fail, and
the model chooses nondeterministically whether it does. Reading can fail
too; that choice is the `readFails` parameter of the get functions. The
JSON codecs are functions passed in as parameters.

Files and modules, one per source unit:

| file | module | models |
|---|---|---|
| wrappers.dfy | Wrappers | `Option`, and how Java renders a null string |
| paths.dfy | Paths | `java.io.File` naming: parent, name, `new File(parent, child)`, the two file-naming rules |
| files.dfy | Files | the filesystem and its failing operations |
| atomic_file.dfy | AtomicFile | the temp-write, move and cleanup protocol shared by both handlers |
| gson_handler.dfy, jackson_handler.dfy | GsonHandler, JacksonHandler | `getJsonObject` and `saveJsonObject` |
| get_operations.dfy, save_operations.dfy, delete_operation.dfy | GetOperations, SaveOperations, DeleteOperation | `GsonGet`, `JacksonGet`, `GsonSave`, `JacksonSave`, `NormalDelete` |
| crud_adapters.dfy | Adapters | `CRUDAdapters` |
| record_store.dfy | RecordStore | the `CRUD` collaborator seen by the managers (`getData`, `saveData`, `deleteData`, the directory) |
| crud_manager.dfy | Manager | `CRUDManager` |
| single_crud.dfy | Single | `SingleCRUD` with its default GSON get/save and `NormalDelete` |
| registry.dfy | Registry | `CRUDRegistry` |
| optional_adapter.dfy | OptionalAdapter | `OptionalTypeAdapter` and its factory |
| person.dfy | People | `Person` |

Some of the code's behaviour differs from its own doc comments. In each case
the model follows the code:

- `CRUDManager.getSet` returns the live collection, not a defensive copy.
- The second guard of `CRUDManager.remove` (the id lookup) never refuses,
  because a record that is held is found under its own id.
- `CRUDAdapters.mergeWith` drops the receiver's additional Jackson modules.
- `GsonGet`, `GsonSave` and `JacksonGet` name the file `path + id + ".json"`.
  `JacksonSave` and `NormalDelete` use `new File(path, id + ".json")`. The two
  names agree only when a separator sits between the two: `path` ends with
  one or the id starts with one.

## Model

| member | source | states |
|---|---|---|
| Paths.NameOfChild | src/main/java/me/mortaldev/crudapi/handlers/GSON.java:146 | Joining a child with no separator under any parent makes that child the file name of the result. |
| Paths.TempPathDiffers | src/main/java/me/mortaldev/crudapi/handlers/GSON.java:146 | The temporary file is named after the target plus ".tmp", and it is never the target itself. |
| Paths.TempPathIsSuffixed | src/main/java/me/mortaldev/crudapi/handlers/GSON.java:146 | For a path without doubled separators, the temporary file is the sibling path + ".tmp". |
| Paths.TempPathSameParent | src/main/java/me/mortaldev/crudapi/handlers/GSON.java:140-146 | For a path without doubled separators, the temporary file lies in the target's own parent directory, the one the save creates when it is missing. |
| Paths.ChildMatchesConcat | src/main/java/me/mortaldev/crudapi/operations/save/JacksonSave.java:24 | `new File(path, name)` equals the string `path + name` exactly when the path ends with a separator or the name starts with one. |
| Paths.NamingRulesAgree | src/main/java/me/mortaldev/crudapi/operations/get/GsonGet.java:13 | The concatenation rule and the `new File(path, id + ".json")` rule name the same file if and only if the path ends with a separator or the id starts with one. |
| Paths.ChildJsonFileName | src/main/java/me/mortaldev/crudapi/operations/delete/NormalDelete.java:26 | An id with no separator names the file id + ".json" directly inside the directory. |
| Files.FileSystem.CreateDirectories | src/main/java/me/mortaldev/crudapi/handlers/GSON.java:141-143 | On success the directory is added. On failure nothing changes, and it always fails where a regular file stands. Files are never touched. |
| Files.FileSystem.WriteFile | src/main/java/me/mortaldev/crudapi/handlers/GSON.java:148-151 | Success needs the parent directory and sets the file to the content. A failure changes no other file and may leave a prefix of the content behind. |
| Files.FileSystem.Move | src/main/java/me/mortaldev/crudapi/handlers/GSON.java:154-158 | A replacing atomic move: the source's content appears at the target and the source is gone, or nothing changes. |
| Files.FileSystem.DeleteFile | src/main/java/me/mortaldev/crudapi/handlers/GSON.java:165 | `Files.delete`: removes exactly the regular file at the path, or the empty directory standing there, or changes nothing. A missing path or a directory with entries is never removed. Keeps files and directories apart. |
| AtomicFile.AtomicWrite | src/main/java/me/mortaldev/crudapi/handlers/GSON.java:137-170 | Every run of the protocol has one outcome: directory failed, written, or write failed with or without cleanup. A missing parent directory is created before anything is written, and the directory outcome happens only when that parent was missing. A written outcome leaves the temporary file's directory present and the target holding the content. The disk changes only as that outcome's effect allows, and files and directories stay apart. The same protocol appears at Jackson.java:129-161. |
| AtomicFile.WriteIsAllOrNothing | src/main/java/me/mortaldev/crudapi/handlers/GSON.java:137-170 | After a save the target holds the new content or is exactly as before. No other file except the temporary one changes. A successful save leaves no temporary file, and for a path without doubled separators the target's directory exists. A failed directory step means the parent was missing. |
| GsonHandler.GetJsonObject | src/main/java/me/mortaldev/crudapi/handlers/GSON.java:88-111 | Null for a null file, class or adapters argument, for a missing file or a directory, and on a read failure. Otherwise it is what the decoder makes of the file's content. |
| GsonHandler.SaveJsonObject | src/main/java/me/mortaldev/crudapi/handlers/GSON.java:124-171 | A null file, object or adapters argument changes nothing. Otherwise the encoding is saved with the atomic write protocol, which first creates a missing parent directory. |
| JacksonHandler.GetJsonObject | src/main/java/me/mortaldev/crudapi/handlers/Jackson.java:89-108 | The same guard chain as the GSON handler, with the decoder configured by the adapters' modules. |
| JacksonHandler.SaveJsonObject | src/main/java/me/mortaldev/crudapi/handlers/Jackson.java:120-162 | A null argument changes nothing. Otherwise the module-configured encoding is saved with the atomic write protocol, which first creates a missing parent directory. |
| GetOperations.GsonGet | src/main/java/me/mortaldev/crudapi/operations/get/GsonGet.java:12-19 | Empty unless something is at path + id + ".json". A present result comes from that regular file, read without failure and decoded. A readable, decodable file always gives its value. |
| GetOperations.JacksonGet | src/main/java/me/mortaldev/crudapi/operations/get/JacksonGet.java:13-20 | The same as GsonGet, through the Jackson handler. |
| SaveOperations.GsonSave | src/main/java/me/mortaldev/crudapi/operations/save/GsonSave.java:12-15 | Saves to path + id + ".json" (a null id or path becomes "null") with no checks of its own. A null object or null adapters change nothing. |
| SaveOperations.JacksonSaveTarget | src/main/java/me/mortaldev/crudapi/operations/save/JacksonSave.java:19-24 | There is no target exactly when the object is null, the id is null or empty, or the path is null. Otherwise the target is `new File(path, id + ".json")`. |
| SaveOperations.JacksonSave | src/main/java/me/mortaldev/crudapi/operations/save/JacksonSave.java:19-26 | A refused call changes nothing. Otherwise the atomic write goes to `new File(path, id + ".json")`. |
| SaveOperations.GsonSaveThenGet | src/main/java/me/mortaldev/crudapi/operations/save/GsonSave.java:13 | After a successful GSON save of a value that the codec reads back, GsonGet with the same id and path returns that value. |
| SaveOperations.JacksonSaveThenGet | src/main/java/me/mortaldev/crudapi/operations/save/JacksonSave.java:24 | When the path ends with a separator or the id starts with one, JacksonGet finds what JacksonSave wrote. |
| SaveOperations.JacksonSaveMissedByGet | src/main/java/me/mortaldev/crudapi/operations/save/JacksonSave.java:24 | When there is no separator between the path and the id, JacksonGet looks at a different file and finds nothing the save wrote. |
| DeleteOperation.NormalDelete | src/main/java/me/mortaldev/crudapi/operations/delete/NormalDelete.java:17-40 | False with no change for a null or empty id, a null path, or a missing target. True exactly when `new File(path, id + ".json")` was a regular file or an empty directory and is now removed, with nothing else changed. |
| Adapters.CRUDAdapters.GetModules | src/main/java/me/mortaldev/crudapi/CRUDAdapters.java:42-46 | The result is exactly the modules a Jackson mapper is given: the primary module and every added module, and nothing else. |
| Adapters.CRUDAdapters.AddModule | src/main/java/me/mortaldev/crudapi/CRUDAdapters.java:54-57 | Adds the module to a set, so adding it twice is the same as adding it once. Returns the receiver. |
| Adapters.CRUDAdapters.GetTypeAdapters | src/main/java/me/mortaldev/crudapi/CRUDAdapters.java:117-119 | Exactly the registered classes and adapters. |
| Adapters.CRUDAdapters.AddTypeAdapter | src/main/java/me/mortaldev/crudapi/CRUDAdapters.java:128-131 | The class maps to the new adapter, and every other class keeps its adapter. |
| Adapters.CRUDAdapters.AddTypeAdapters | src/main/java/me/mortaldev/crudapi/CRUDAdapters.java:139-142 | Keys are the union. The argument wins on a shared class, and classes only in the receiver keep their adapter. |
| Adapters.CRUDAdapters.MergeWith | src/main/java/me/mortaldev/crudapi/CRUDAdapters.java:153-161 | Builds a new instance. Its keys are the union, and the receiver wins on a shared class. Its additional modules are the other's additional modules plus both primary modules. |
| Adapters.MergedModules | src/main/java/me/mortaldev/crudapi/CRUDAdapters.java:157-159 | A module added only to the receiver is not among the merged instance's modules. |
| RecordStore.Store.GetData | src/main/java/me/mortaldev/crudapi/CRUD.java:44-46 | Present exactly for ids whose file decodes, and then it is the decoded value. |
| RecordStore.Store.SaveData | src/main/java/me/mortaldev/crudapi/CRUD.java:63-65 | Records the call. Then it either stores the value under the id or, when the value is null or the write fails, leaves the store as it was. |
| RecordStore.Store.DeleteData | src/main/java/me/mortaldev/crudapi/CRUD.java:54-56 | Records the call. True means the id was not empty and its entry is gone; false means nothing changed. |
| RecordStore.Store.EnsureDirectory | src/main/java/me/mortaldev/crudapi/CRUDManager.java:33-38 | An existing directory always succeeds. The result says whether the directory exists afterwards. |
| RecordStore.Store.ListFiles | src/main/java/me/mortaldev/crudapi/CRUDManager.java:39-42 | A listing is the directory's entries. There is no listing without a directory. |
| Manager.CRUDManager.Load | src/main/java/me/mortaldev/crudapi/CRUDManager.java:31-52 | The previous set is discarded. Afterwards the set is empty with nothing logged, or holds exactly the records the store decodes for the listed names with ".json" removed, with one message logged per entry that failed, in listing order. Without a directory the set is empty. |
| Manager.CRUDManager.GetByID | src/main/java/me/mortaldev/crudapi/CRUDManager.java:61-68 | Present if and only if some held record has the id. A present result is held and has that id. |
| Manager.CRUDManager.GetByRecord | src/main/java/me/mortaldev/crudapi/CRUDManager.java:78-80 | The same answer as the lookup by the record's id. |
| Manager.CRUDManager.Contains | src/main/java/me/mortaldev/crudapi/CRUDManager.java:89-91 | True if and only if the record is held or another record has its id, which is the same as some held record having its id. |
| Manager.CRUDManager.GetSet | src/main/java/me/mortaldev/crudapi/CRUDManager.java:103-108 | Loads only when the set is empty. A non-empty set is returned untouched, and the result is the collection itself. |
| Manager.CRUDManager.Add | src/main/java/me/mortaldev/crudapi/CRUDManager.java:122-129 | Succeeds if and only if no held record has the id. A refused call changes nothing and saves nothing. On success the record is inserted and saved once, and it stays inserted even if the save fails. Unique ids stay unique. |
| Manager.CRUDManager.Remove | src/main/java/me/mortaldev/crudapi/CRUDManager.java:143-150 | Succeeds if and only if that very record is held; a different record with the same id is refused with no change. On success only that record goes, the store is asked to delete its id, and true is returned whatever the delete reports. |
| Manager.CRUDManager.Update | src/main/java/me/mortaldev/crudapi/CRUDManager.java:162-170 | Succeeds if and only if some record has the id; it never adds. On success the record with that id is replaced by the new one and saved. With unique ids, uniqueness and set size are kept. |
| Manager.ReplaceKeepsIds | src/main/java/me/mortaldev/crudapi/CRUDManager.java:166-167 | Replacing a record by one with the same id keeps ids unique and keeps the size. |
| Manager.LoadedFromMembers | src/main/java/me/mortaldev/crudapi/CRUDManager.java:43-51 | A record is loaded if and only if some listed entry's name with ".json" removed decodes to it. |
| Manager.NothingLoggedIffAllLoad | src/main/java/me/mortaldev/crudapi/CRUDManager.java:45-48 | A load logs nothing if and only if every listed entry decodes. |
| Manager.LoadedIdsUnique | src/main/java/me/mortaldev/crudapi/CRUDManager.java:43-51 | When the store files every record under its own id, a load never holds two records with one id. |
| Manager.StripJsonIdentity | src/main/java/me/mortaldev/crudapi/CRUDManager.java:44 | A name with no ".json" in it is unchanged by the replace. |
| Manager.StripJsonSuffix | src/main/java/me/mortaldev/crudapi/CRUDManager.java:44 | Appending ".json" to a name does not change what the replace leaves. |
| Manager.StemOfJsonFile | src/main/java/me/mortaldev/crudapi/CRUDManager.java:44 | A record saved as id + ".json" is looked up under id again, provided the id has no ".json" in it. |
| Manager.StemLosesInnerJson | src/main/java/me/mortaldev/crudapi/CRUDManager.java:44 | The replace removes every occurrence, so the file of id "x.json" is looked up under "x". |
| Single.SingleCRUD.Stored | src/main/java/me/mortaldev/crudapi/SingleCRUD.java:18-20 | What a load that reads without failure yields: the decoded content of getPath() + getID() + ".json", or empty when that is not a regular file. |
| Single.SingleCRUD.Get | src/main/java/me/mortaldev/crudapi/SingleCRUD.java:11-16 | Returns the held value without loading. A failure message naming getID() is logged if and only if the value is null. |
| Single.SingleCRUD.Load | src/main/java/me/mortaldev/crudapi/SingleCRUD.java:18-20 | Replaces the held value by what is stored under the holder's own id, or by null when nothing decodable is there or reading fails. |
| Single.SingleCRUD.Save | src/main/java/me/mortaldev/crudapi/SingleCRUD.java:29-31 | A null value writes nothing. Otherwise the value is written atomically to the holder's file. The held value is unchanged. |
| Single.SingleCRUD.Delete | src/main/java/me/mortaldev/crudapi/SingleCRUD.java:33-35 | Removes `new File(getPath(), getID() + ".json")`, a regular file or an empty directory, and reports whether it did. An empty id always fails, and the held value is unchanged. |
| Single.SaveThenLoad | src/main/java/me/mortaldev/crudapi/SingleCRUD.java:29-31 | After a successful save of a value that the codec reads back, the next successful load yields that value. |
| Single.DeleteReachesSavedFile | src/main/java/me/mortaldev/crudapi/SingleCRUD.java:33-35 | A successful delete removes the file save wrote if and only if the path ends with a separator or the id starts with one; otherwise that file stays as it was, whether the delete took a file or an empty directory. |
| Registry.CRUDRegistry.GetGlobalAdapters | src/main/java/me/mortaldev/crudapi/loading/CRUDRegistry.java:39-41 | Always the one instance created with the registry. |
| Registry.CRUDRegistry.SetLoggingEnabled | src/main/java/me/mortaldev/crudapi/loading/CRUDRegistry.java:49-54 | Sets the flag. Enabling logs the enable message; disabling logs nothing. |
| Registry.CRUDRegistry.LogVerbose | src/main/java/me/mortaldev/crudapi/loading/CRUDRegistry.java:56-60 | A message is logged if and only if logging is enabled. |
| Registry.CRUDRegistry.Register | src/main/java/me/mortaldev/crudapi/loading/CRUDRegistry.java:64-67 | The set only grows, by that manager. Registering it again leaves the set as it was. A verbose message names the manager. |
| Registry.CRUDRegistry.Initialize | src/main/java/me/mortaldev/crudapi/loading/CRUDRegistry.java:70-76 | Always logs the count of registered managers, then asks every registered manager to load exactly once (the load order is a permutation of the set), then logs the verbose completion message. The set is unchanged. |
| Registry.LoadedOnce | src/main/java/me/mortaldev/crudapi/loading/CRUDRegistry.java:73 | In the load order, each registered manager appears exactly once and no other manager appears. |
| OptionalAdapter.Write | src/main/java/me/mortaldev/typeadapters/OptionalTypeAdapter.java:71-78 | The output is a bare null token exactly when the Optional is null or empty, or the inner adapter writes the present value as a bare null. Reading it back is `RoundTrip` and `PresentNullIsLost`. |
| OptionalAdapter.ReadOptional | src/main/java/me/mortaldev/typeadapters/OptionalTypeAdapter.java:81-87 | A leading null token is consumed and gives empty. Anything else goes to the inner adapter, and its value comes back wrapped. A read never gives a null Optional. |
| OptionalAdapter.RoundTrip | src/main/java/me/mortaldev/typeadapters/OptionalTypeAdapter.java:72-87 | Reading what write produced gives the Optional back (a null one comes back empty) and leaves the following tokens. This holds when the inner adapter round-trips the value and does not write it as a bare null. |
| OptionalAdapter.PresentNullIsLost | src/main/java/me/mortaldev/typeadapters/OptionalTypeAdapter.java:75-77 | A present value whose inner encoding is a bare null token reads back as empty. |
| OptionalAdapter.StringOptionalRoundTrip | src/main/java/me/mortaldev/typeadapters/OptionalTypeAdapter.java:72-87 | `Optional<String>` round-trips through the String adapter. |
| OptionalAdapter.InnerType | src/main/java/me/mortaldev/typeadapters/OptionalTypeAdapter.java:54-62 | The first type argument of a parameterised type, otherwise Object. |
| OptionalAdapter.Create | src/main/java/me/mortaldev/typeadapters/OptionalTypeAdapter.java:44-52 | No adapter if and only if the raw type is not Optional. An Optional adapter delegates to the inner type. |
| OptionalAdapter.CreateExamples | src/main/java/me/mortaldev/typeadapters/OptionalTypeAdapter.java:44-62 | `Optional<String>` delegates to String, a raw Optional to Object, and String gets no adapter. |
| People.Lower | src/main/java/me/mortaldev/examples/Person.java:42 | Lower-casing keeps the length and lower-cases each character in place. |
| People.Person.constructor | src/main/java/me/mortaldev/examples/Person.java:10-14 | The object holds the given names and age. |
| People.Person.GetFirstName | src/main/java/me/mortaldev/examples/Person.java:24-26 | The constructor's first name, which is a constant. |
| People.Person.GetLastName | src/main/java/me/mortaldev/examples/Person.java:28-30 | The constructor's last name, which is a constant. |
| People.Person.GetAge | src/main/java/me/mortaldev/examples/Person.java:32-34 | The current age, possibly null. |
| People.Person.SetAge | src/main/java/me/mortaldev/examples/Person.java:36-38 | Changes the age and nothing else, so the id is unaffected. |
| People.Person.GetID | src/main/java/me/mortaldev/examples/Person.java:40-43 | The lower-cased first name, then an underscore at the first name's length, then the lower-cased last name. |
| People.JohnnyRockets | src/main/java/me/mortaldev/examples/Person.java:42 | "Johnny" "Rockets" has the id "johnny_rockets". |
| People.CaseInsensitiveId | src/main/java/me/mortaldev/examples/Person.java:42 | Names that differ only in letter case give the same id. |
| People.LowerIdempotent | src/main/java/me/mortaldev/examples/Person.java:42 | Lower-casing twice is the same as lower-casing once. |
| People.IdsCollide | src/main/java/me/mortaldev/examples/Person.java:42 | Different name pairs can share an id when an underscore sits inside a name. |

## Left out

- The JSON codecs (Gson `toJson`/`fromJson`, Jackson `ObjectMapper`) are foreign libraries. They are functions passed in as parameters, and a decode that gives none stands for a syntax error or a null result.
- Jackson serializer and deserializer registration on the primary module (`addSerializer`, `addDeserializer`, `addKeyDeserializer`) is not modelled. Modules are opaque objects.
- The deprecated global handler singletons (`getInstance`, `setGlobalInstance`) are left out. The get and save operations call the handler directly.
- Log messages of the handlers, `NormalDelete` and `JacksonSave`, and all log levels, are left out. The manager, the single holder and the registry keep their messages, because their contracts talk about them.
- Concurrency is left out: `synchronized` on the manager's mutators and the concurrent key set of the registry. Everything is sequential.
- Files.FileSystem.CreateDirectories: creates only the missing parent itself, not the chain of its ancestors.
- Paths.Child: the path normalisation `java.io.File` applies (collapsing doubled separators, dropping a trailing one) is not modelled. So a parent ending with a separator joined to a child starting with one keeps both separators, and an empty child is not special. Paths are kept as written, with '/' as the only separator. For a path with doubled separators the model's temporary file can lie in a different directory from the target; Paths.TempPathSameParent rules this out for paths without them.
- Files.FileSystem.WriteFile: a failure that leaves the file holding something other than a prefix of the content is not modelled. Character encoding is not modelled either.
- RecordStore.Store: the store the manager uses is an abstract map. Its directory listing is independent of which ids decode, and `CRUD.deleteData` takes the record (an older signature) and is modelled by the record's id.
- RecordStore.Store.DeleteData: the abstract store assumes that a delete removes the entry `getData` reads. With CRUD's default `NormalDelete` and `GsonGet` the two name the same file only when the path ends with a separator or the id starts with one (Single.DeleteReachesSavedFile); otherwise a successful delete leaves the record readable, which the store does not model.
- Manager.CRUDManager: null records are not modelled, since a record is a value. In Java, `add`, `contains` and `update` of a null record throw a `NullPointerException` at `data.getID()`, and `remove(null)` returns false. `getByID` throws when a held record's `getID()` is null.
- People.Person.GetID: a null first or last name, for which `getID` throws a `NullPointerException`, is not modelled; names are strings.
- Adapters.CRUDAdapters.GetTypeAdapters: the result is the map's value at the call. `Collections.unmodifiableMap` is a live read-only view that later `addTypeAdapter` calls show through; that aliasing is not modelled.
- Manager.CRUDManager.GetSet: the result is the set's value. The aliasing of the returned live `HashSet`, through which a caller could change the collection, is not modelled.
- Records have value equality (a datatype). Java's `HashSet` uses the records' own `equals`/`hashCode`, which are not modelled.
- `SingleCRUD` passes its type-adapter map where the current `GsonGet`/`GsonSave` expect a `CRUDAdapters`. The model passes the map.
- Registry.CRUDRegistry.Initialize: what each manager's `load` does is not modelled; each call is recorded as an event. The iteration order of the key set is left unspecified.
- OptionalAdapter.ReadOptional: an inner adapter that reads null from a non-null token (Java's `Optional.of` would throw) is not modelled. Stream `IOException`s and the reflection behind `Gson.getAdapter` are not modelled either.
- People.Lower: `String.toLowerCase` is modelled for ASCII letters only, with no locale or Unicode case mapping.
- People.Person.SetAge: the age is an unbounded integer, not a 32-bit `Integer`.
- `Person.save` and `Person.delete`, `PersonCRUD` and `PersonManager` are example wiring (classloader paths, singletons, console output) and are not modelled.
- The legacy duplicates (`crudapi/GsonGet.java`, `crudapi/GsonSave.java`, `crudapi/Get.java`, `crudapi/IGet.java`) and the behaviour-free interfaces and reflection discovery (`Handler`, `Get`, `Save`, `ILoadable`, `IRegistrable`, `AutoRegister`) are not part of this model.
