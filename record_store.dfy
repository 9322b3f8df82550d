/**
 * What CRUDManager and SingleCRUD see of their CRUD collaborator: a storage
 * directory that may have to be created and can be listed, a lookup from id
 * to the decoded value (getData), and saveData / deleteData, which may fail
 * without telling the caller. Every save and delete call is recorded, so the
 * callers' contracts can say which calls they made.
 */
module RecordStore {
  import opened Wrappers

  datatype StoreCall<V> = SaveCall(id: string, value: Option<V>) | DeleteCall(id: string)

  class Store<V> {
    /** getPath(): the storage directory. */
    const path: string
    /** Whether the storage directory exists. */
    var dirExists: bool
    /** The names of the directory's entries, in listFiles order. */
    var listing: seq<string>
    /** The ids whose file holds a decodable value, with that value. */
    var entries: map<string, V>
    /** Every saveData and deleteData call so far, oldest first. */
    var calls: seq<StoreCall<V>>

    ghost predicate Valid()
      reads this
    {
      !dirExists ==> listing == []
    }

    constructor (path: string, dirExists: bool, listing: seq<string>, entries: map<string, V>)
      requires dirExists || listing == []
      ensures Valid()
      ensures this.path == path && this.dirExists == dirExists && this.listing == listing
      ensures this.entries == entries && calls == []
    {
      this.path := path;
      this.dirExists := dirExists;
      this.listing := listing;
      this.entries := entries;
      calls := [];
    }

    /** getData(id): the decoded value, empty when the file is missing or does not decode. */
    function GetData(id: string): (r: Option<V>)
      reads this
      ensures r.Some? <==> id in entries
      ensures r.Some? ==> r.value == entries[id]
    {
      if id in entries then Some(entries[id]) else None
    }

    /** dir.exists() || dir.mkdirs(): true when the directory is there afterwards. */
    method EnsureDirectory() returns (ok: bool)
      requires Valid()
      modifies this`dirExists
      ensures Valid()
      ensures ok == dirExists
      ensures old(dirExists) ==> ok
    {
      if dirExists {
        return true;
      }
      ok :| true;
      dirExists := ok;
    }

    /** dir.listFiles(): the entry names, or null when the directory cannot be listed. */
    method ListFiles() returns (names: Option<seq<string>>)
      ensures names.Some? ==> dirExists && names.value == listing
      ensures !dirExists ==> names.None?
    {
      if !dirExists {
        return None;
      }
      var failed: bool :| true;
      if failed {
        return None;
      }
      return Some(listing);
    }

    /**
     * saveData: persists `value` under `id`, or does nothing when the value is
     * null or the write fails; the caller is not told which.
     */
    method SaveData(id: string, value: Option<V>)
      modifies this`entries, this`calls
      ensures calls == old(calls) + [SaveCall(id, value)]
      ensures entries == old(entries) || (value.Some? && entries == old(entries)[id := value.value])
    {
      calls := calls + [SaveCall(id, value)];
      var written: bool :| true;
      if written && value.Some? {
        entries := entries[id := value.value];
      }
    }

    /** deleteData: removes the file of `id` and reports whether it did. */
    method DeleteData(id: string) returns (ok: bool)
      modifies this`entries, this`calls
      ensures calls == old(calls) + [DeleteCall(id)]
      ensures ok ==> id != "" && entries == old(entries) - {id}
      ensures !ok ==> entries == old(entries)
    {
      calls := calls + [DeleteCall(id)];
      if id == "" {
        return false;
      }
      ok :| true;
      if ok {
        entries := entries - {id};
      }
    }
  }
}
