/**
 * CRUDManager: an in-memory collection of identifiable records, backed by a
 * store. Additions and updates are saved and removals deleted through the
 * store, but the in-memory change is kept whether or not the store call
 * succeeds. Records are identified by the id they report (getID).
 */
module Manager {
  import opened Wrappers
  import opened RecordStore

  /** A record: the id its getID returns, and everything else it holds. */
  datatype Record<P> = Record(id: string, payload: P)

  ghost predicate HasId<P>(s: set<Record<P>>, id: string)
  {
    exists r :: r in s && r.id == id
  }

  ghost predicate UniqueIds<P>(s: set<Record<P>>)
  {
    forall a, b :: a in s && b in s && a.id == b.id ==> a == b
  }

  /** ".json" occurs in `s` starting at index `i`. */
  predicate JsonAt(s: string, i: int)
  {
    0 <= i && i + 5 <= |s| && s[i..i + 5] == ".json"
  }

  ghost predicate NoJson(s: string)
  {
    forall i :: !JsonAt(s, i)
  }

  /**
   * String.replace(".json", ""): every non-overlapping occurrence, scanning
   * from the left, is removed; the text that closes up is not scanned again.
   */
  function StripJson(s: string): (t: string)
    ensures |t| <= |s|
  {
    if |s| < 5 then s
    else if s[..5] == ".json" then StripJson(s[5..])
    else [s[0]] + StripJson(s[1..])
  }

  /** The message logged for a directory entry that does not load. */
  function LoadFailure(name: string): string
  {
    "Failed to load data: " + name + ".json"
  }

  /** What load collects from the listed entries `names`, given what the store decodes. */
  ghost function LoadedFrom<P>(entries: map<string, Record<P>>, names: seq<string>): set<Record<P>>
  {
    if names == [] then {}
    else
      var id := StripJson(names[|names| - 1]);
      LoadedFrom(entries, names[..|names| - 1]) + (if id in entries then {entries[id]} else {})
  }

  /** What load logs for the listed entries `names`, in listing order. */
  ghost function FailedLoads<P>(entries: map<string, Record<P>>, names: seq<string>): seq<string>
  {
    if names == [] then []
    else
      var last := names[|names| - 1];
      FailedLoads(entries, names[..|names| - 1]) + (if StripJson(last) in entries then [] else [LoadFailure(last)])
  }

  /** Every record the store decodes is stored under its own id. */
  ghost predicate StoreConsistent<P>(entries: map<string, Record<P>>)
  {
    forall id :: id in entries ==> entries[id].id == id
  }

  /** The outcome of load: nothing (no directory, or no listing), or exactly what the listing yields. */
  ghost predicate LoadOutcome<P>(records: set<Record<P>>, log: seq<string>, log0: seq<string>,
                                 entries: map<string, Record<P>>, listing: seq<string>)
  {
    || (records == {} && log == log0)
    || (records == LoadedFrom(entries, listing) && log == log0 + FailedLoads(entries, listing))
  }

  class CRUDManager<P(==)> {
    /** The in-memory collection (the `set` field). */
    var records: set<Record<P>>
    /** Messages passed to log, oldest first. */
    var log: seq<string>
    /** getCRUD(): the store this manager loads from and saves to. */
    const store: Store<Record<P>>

    constructor (store: Store<Record<P>>)
      ensures this.store == store && records == {} && log == []
    {
      this.store := store;
      records := {};
      log := [];
    }

    /**
     * load: the previous collection is discarded; when the directory exists
     * or can be created and can be listed, each entry is looked up under its
     * name with ".json" removed, and entries that do not load are logged and
     * skipped.
     */
    method Load()
      requires store.Valid()
      modifies this`records, this`log, store`dirExists
      ensures store.Valid()
      ensures old(store.dirExists) ==> store.dirExists
      ensures !store.dirExists ==> records == {} && log == old(log)
      ensures LoadOutcome(records, log, old(log), store.entries, store.listing)
    {
      records := {};
      var ok := store.EnsureDirectory();
      if !ok {
        return;
      }
      var names := store.ListFiles();
      if names.None? {
        return;
      }
      var files := names.value;
      for i := 0 to |files|
        invariant store.dirExists && store.Valid()
        invariant records == LoadedFrom(store.entries, files[..i])
        invariant log == old(log) + FailedLoads(store.entries, files[..i])
      {
        assert files[..i + 1][..i] == files[..i];
        var data := store.GetData(StripJson(files[i]));
        if data.None? {
          log := log + [LoadFailure(files[i])];
        } else {
          records := records + {data.value};
        }
      }
      assert files[..|files|] == files;
    }

    /** getByID(id): a record whose id is `id`, found by scanning the collection. */
    method GetByID(id: string) returns (r: Option<Record<P>>)
      ensures r.Some? ==> r.value in records && r.value.id == id
      ensures r.None? <==> !HasId(records, id)
    {
      var rest := records;
      while rest != {}
        invariant rest <= records
        invariant forall x :: x in records && x !in rest ==> x.id != id
        decreases rest
      {
        var x :| x in rest;
        if x.id == id {
          return Some(x);
        }
        rest := rest - {x};
      }
      return None;
    }

    /** getByID(data): the lookup by data's id. */
    method GetByRecord(data: Record<P>) returns (r: Option<Record<P>>)
      ensures r.Some? ==> r.value in records && r.value.id == data.id
      ensures r.None? <==> !HasId(records, data.id)
    {
      r := GetByID(data.id);
    }

    /** contains: the record itself is held, or another one with its id. */
    method Contains(data: Record<P>) returns (b: bool)
      ensures b <==> data in records || HasId(records, data.id)
      ensures b <==> HasId(records, data.id)
    {
      if data in records {
        return true;
      }
      var found := GetByID(data.id);
      b := found.Some?;
    }

    /** getSet: loads only when the collection is empty, and returns the collection itself. */
    method GetSet() returns (s: set<Record<P>>)
      requires store.Valid()
      modifies this`records, this`log, store`dirExists
      ensures store.Valid()
      ensures s == records
      ensures old(records) != {} ==> records == old(records) && log == old(log) && store.dirExists == old(store.dirExists)
      ensures old(records) == {} ==> LoadOutcome(records, log, old(log), store.entries, store.listing)
    {
      if records == {} {
        Load();
      }
      s := records;
    }

    /**
     * add: refused when the record or another one with its id is held;
     * otherwise inserted and saved, and the insertion stays even when the
     * save fails.
     */
    method Add(data: Record<P>) returns (ok: bool)
      modifies this`records, store`entries, store`calls
      ensures ok <==> !HasId(old(records), data.id)
      ensures !ok ==> records == old(records) && store.calls == old(store.calls) && store.entries == old(store.entries)
      ensures ok ==> records == old(records) + {data} && data !in old(records)
      ensures ok ==> store.calls == old(store.calls) + [SaveCall(data.id, Some(data))]
      ensures ok ==> store.entries == old(store.entries) || store.entries == old(store.entries)[data.id := data]
      ensures UniqueIds(old(records)) ==> UniqueIds(records)
    {
      if data in records {
        assert HasId(records, data.id);
        return false;
      }
      var found := GetByID(data.id);
      if found.Some? {
        return false;
      }
      records := records + {data};
      store.SaveData(data.id, Some(data));
      ok := true;
    }

    /**
     * remove: refused unless this very record is held; otherwise taken out
     * and deleted from the store, and true is returned whatever the delete
     * reports.
     */
    method Remove(data: Record<P>) returns (ok: bool)
      modifies this`records, store`entries, store`calls
      ensures ok <==> data in old(records)
      ensures !ok ==> records == old(records) && store.calls == old(store.calls) && store.entries == old(store.entries)
      ensures ok ==> records == old(records) - {data}
      ensures ok ==> store.calls == old(store.calls) + [DeleteCall(data.id)]
      ensures ok ==> store.entries == old(store.entries) || store.entries == old(store.entries) - {data.id}
      ensures UniqueIds(old(records)) ==> UniqueIds(records)
    {
      if data !in records {
        return false;
      }
      var found := GetByID(data.id);
      if found.None? {
        // the record itself carries its id, so the second guard never refuses
        assert false;
      }
      records := records - {data};
      var _ := store.DeleteData(data.id);
      ok := true;
    }

    /**
     * update: refused when no record has data's id (it does not add);
     * otherwise the record with that id is replaced by `data` and saved.
     */
    method Update(data: Record<P>) returns (ok: bool)
      modifies this`records, store`entries, store`calls
      ensures ok <==> HasId(old(records), data.id)
      ensures !ok ==> records == old(records) && store.calls == old(store.calls) && store.entries == old(store.entries)
      ensures ok ==> exists prev :: prev in old(records) && prev.id == data.id && records == old(records) - {prev} + {data}
      ensures ok ==> store.calls == old(store.calls) + [SaveCall(data.id, Some(data))]
      ensures ok ==> store.entries == old(store.entries) || store.entries == old(store.entries)[data.id := data]
      ensures UniqueIds(old(records)) ==> UniqueIds(records) && |records| == |old(records)|
    {
      var found := GetByID(data.id);
      if found.None? {
        return false;
      }
      var prev := found.value;
      if UniqueIds(records) {
        ReplaceKeepsIds(records, prev, data);
      }
      records := records - {prev} + {data};
      store.SaveData(data.id, Some(data));
      ok := true;
    }
  }

  /** Replacing a record by one with the same id keeps ids unique and the size unchanged. */
  lemma ReplaceKeepsIds<P>(s: set<Record<P>>, prev: Record<P>, data: Record<P>)
    requires UniqueIds(s) && prev in s && prev.id == data.id
    ensures UniqueIds(s - {prev} + {data})
    ensures |s - {prev} + {data}| == |s|
  {
    assert data !in s - {prev};
  }

  /** A record is loaded exactly when some listed entry's stem decodes to it. */
  lemma {:induction false} LoadedFromMembers<P>(entries: map<string, Record<P>>, names: seq<string>, r: Record<P>)
    ensures r in LoadedFrom(entries, names) <==>
            exists i :: 0 <= i < |names| && StripJson(names[i]) in entries && entries[StripJson(names[i])] == r
  {
    if names != [] {
      var init := names[..|names| - 1];
      LoadedFromMembers(entries, init, r);
      if r in LoadedFrom(entries, init) {
        var i :| 0 <= i < |init| && StripJson(init[i]) in entries && entries[StripJson(init[i])] == r;
        assert names[i] == init[i];
      }
      if exists i :: 0 <= i < |names| && StripJson(names[i]) in entries && entries[StripJson(names[i])] == r {
        var i :| 0 <= i < |names| && StripJson(names[i]) in entries && entries[StripJson(names[i])] == r;
        if i < |init| {
          assert init[i] == names[i];
        }
      }
    }
  }

  /** Nothing is logged exactly when every listed entry loads. */
  lemma {:induction false} NothingLoggedIffAllLoad<P>(entries: map<string, Record<P>>, names: seq<string>)
    ensures FailedLoads(entries, names) == [] <==> forall i :: 0 <= i < |names| ==> StripJson(names[i]) in entries
  {
    if names != [] {
      var init := names[..|names| - 1];
      NothingLoggedIffAllLoad(entries, init);
      if FailedLoads(entries, names) == [] {
        assert FailedLoads(entries, init) == [];
        forall i | 0 <= i < |names|
          ensures StripJson(names[i]) in entries
        {
          if i < |init| {
            assert init[i] == names[i];
          }
        }
      }
    }
  }

  /** When the store files every record under its own id, a load never holds two records with one id. */
  lemma LoadedIdsUnique<P>(entries: map<string, Record<P>>, names: seq<string>)
    requires StoreConsistent(entries)
    ensures UniqueIds(LoadedFrom(entries, names))
  {
    forall a, b | a in LoadedFrom(entries, names) && b in LoadedFrom(entries, names) && a.id == b.id
      ensures a == b
    {
      LoadedFromMembers(entries, names, a);
      LoadedFromMembers(entries, names, b);
      var i :| 0 <= i < |names| && StripJson(names[i]) in entries && entries[StripJson(names[i])] == a;
      var j :| 0 <= j < |names| && StripJson(names[j]) in entries && entries[StripJson(names[j])] == b;
      assert StripJson(names[i]) == a.id && StripJson(names[j]) == b.id;
    }
  }

  /** A name without ".json" in it is its own stem. */
  lemma {:induction false} StripJsonIdentity(s: string)
    requires NoJson(s)
    ensures StripJson(s) == s
  {
    if |s| >= 5 {
      assert !JsonAt(s, 0);
      assert s[..5] != ".json";
      forall i | true
        ensures !JsonAt(s[1..], i)
      {
        if JsonAt(s[1..], i) {
          assert s[1..][i..i + 5] == s[i + 1..i + 6];
          assert JsonAt(s, i + 1);
        }
      }
      StripJsonIdentity(s[1..]);
    }
  }

  /** Appending ".json" does not change the stem: ".json" cannot overlap itself. */
  lemma {:induction false} StripJsonSuffix(s: string)
    ensures StripJson(s + ".json") == StripJson(s)
  {
    var t := s + ".json";
    if |s| == 0 {
      assert t[..5] == ".json" && t[5..] == [];
    } else if |s| >= 5 && s[..5] == ".json" {
      assert t[..5] == ".json";
      assert t[5..] == s[5..] + ".json";
      StripJsonSuffix(s[5..]);
    } else {
      assert t[..5] != ".json" by {
        if |s| < 5 {
          assert t[..5][|s|] == '.';
          assert ".json"[1] == 'j' && ".json"[2] == 's' && ".json"[3] == 'o' && ".json"[4] == 'n';
        } else {
          assert t[..5] == s[..5];
        }
      }
      assert t[1..] == s[1..] + ".json";
      StripJsonSuffix(s[1..]);
      if |s| < 5 {
        assert StripJson(s[1..]) == s[1..];
        assert [s[0]] + s[1..] == s;
      }
    }
  }

  /** An id without ".json" in it is loaded back from its file name. */
  lemma StemOfJsonFile(id: string)
    requires NoJson(id)
    ensures StripJson(id + ".json") == id
  {
    StripJsonSuffix(id);
    StripJsonIdentity(id);
  }

  /** An id that contains ".json" is not: its file "x.json.json" loads under "x". */
  lemma StemLosesInnerJson()
    ensures StripJson("x.json" + ".json") == "x"
  {
    var name := "x.json" + ".json";
    assert name[..5][0] != ".json"[0];
    assert name[1..] == ".json" + ".json";
    assert (".json" + ".json")[..5] == ".json" && (".json" + ".json")[5..] == ".json";
    assert ".json"[5..] == "";
    assert StripJson(".json") == "";
    assert StripJson(".json" + ".json") == "";
    assert StripJson(name) == ['x'] + "";
  }
}
