/**
 * The write protocol both JSON handlers follow in saveJsonObject: create the
 * missing parent directory, write the encoding to the sibling temporary file,
 * move it over the target with replace, and on failure delete the temporary
 * file if it exists.
 */
module AtomicFile {
  import opened Wrappers
  import opened Paths
  import opened Files

  /**
   * Which way a saveJsonObject call went. The Java methods return nothing and
   * report only through the logger; the model returns the path taken.
   */
  datatype SaveOutcome =
    | Rejected                       // a null argument: nothing attempted
    | DirectoryFailed                // the missing parent directory could not be created
    | Written                        // temporary file written and moved over the target
    | WriteFailed(tempRemoved: bool) // writing or moving failed; whether no temporary file is left

  function At(d: Disk, p: Path): Option<Content>
  {
    if p in d.files then Some(d.files[p]) else None
  }

  /** The parent directory of `file` does not exist yet, so the save has to create it first. */
  ghost predicate ParentMissing(before: Disk, file: Path)
  {
    Parent(file).Some? && !before.Exists(Parent(file).value)
  }

  /** The directories once a missing parent has been created. */
  ghost function Prepared(before: Disk, file: Path): set<Path>
  {
    if ParentMissing(before, file) then before.dirs + {Parent(file).value} else before.dirs
  }

  /**
   * The filesystem change one saveJsonObject call makes, by outcome. A
   * missing parent directory is created before anything is written, and the
   * directory step fails only when that parent was missing. The temporary
   * file is written in the parent present by then. A failed save may have
   * deleted the temporary file, or an empty directory standing in its place.
   */
  ghost predicate WriteEffect(before: Disk, after: Disk, file: Path, content: Content, outcome: SaveOutcome)
  {
    var temp := TempPath(file);
    match outcome
    case Rejected => after == before
    case DirectoryFailed => ParentMissing(before, file) && after == before
    case Written =>
      && after.dirs == Prepared(before, file)
      && after.ParentPresent(temp)
      && after.files == (before.files - {temp})[file := content]
    case WriteFailed(removed) =>
      && (after.dirs == Prepared(before, file) || after.dirs == Prepared(before, file) - {temp})
      && after.files - {temp} == before.files - {temp}
      && (removed ==> temp !in after.files)
      && (removed && before.Wf() ==> !after.Exists(temp))
  }

  /** Maps that agree once `k` is taken out agree at every other key. */
  lemma AgreeAway(m1: map<Path, Content>, m2: map<Path, Content>, k: Path, q: Path)
    requires m1 - {k} == m2 - {k}
    requires q != k
    ensures (q in m1 <==> q in m2) && (q in m1 ==> m1[q] == m2[q])
  {
    assert q in m1 <==> q in m1 - {k};
    assert q in m2 <==> q in m2 - {k};
    if q in m1 {
      assert m1[q] == (m1 - {k})[q];
      assert m2[q] == (m2 - {k})[q];
    }
  }

  /** A successful save: the target holds the content, the temporary file is gone, nothing else changes. */
  lemma WrittenEffect(before: Disk, after: Disk, file: Path, content: Content)
    requires WriteEffect(before, after, file, content, Written)
    ensures At(after, file) == Some(content)
    ensures TempPath(file) !in after.files
    ensures forall q :: q != file && q != TempPath(file) ==> At(after, q) == At(before, q)
  {
    TempPathDiffers(file);
  }

  /** A failed save: every file but the temporary one is as it was. */
  lemma FailedEffect(before: Disk, after: Disk, file: Path, content: Content, removed: bool)
    requires WriteEffect(before, after, file, content, WriteFailed(removed))
    ensures forall q :: q != TempPath(file) ==> At(after, q) == At(before, q)
  {
    forall q | q != TempPath(file)
      ensures At(after, q) == At(before, q)
    {
      AgreeAway(after.files, before.files, TempPath(file), q);
    }
  }

  /**
   * The target is either fully replaced by the new content or left exactly as
   * it was; no file other than the target and its temporary file changes; a
   * successful write leaves no temporary file behind and, for a path in
   * normal form, leaves the target's directory in place.
   */
  lemma WriteIsAllOrNothing(before: Disk, after: Disk, file: Path, content: Content, outcome: SaveOutcome)
    requires WriteEffect(before, after, file, content, outcome)
    ensures outcome == Written ==> At(after, file) == Some(content)
    ensures outcome != Written ==> At(after, file) == At(before, file)
    ensures outcome == Written ==> TempPath(file) !in after.files
    ensures outcome == Written && Normalized(file) ==> after.ParentPresent(file)
    ensures outcome == DirectoryFailed ==> Parent(file).Some? && !before.Exists(Parent(file).value)
    ensures forall q :: q != file && q != TempPath(file) ==> At(after, q) == At(before, q)
  {
    TempPathDiffers(file);
    match outcome
    case Written =>
      WrittenEffect(before, after, file, content);
      if Normalized(file) {
        TempPathSameParent(file);
      }
    case WriteFailed(removed) =>
      FailedEffect(before, after, file, content, removed);
    case _ =>
  }

  /** The save protocol of GSON.saveJsonObject and Jackson.saveJsonObject once the arguments passed the null checks. */
  method AtomicWrite(fs: FileSystem, file: Path, content: Content) returns (outcome: SaveOutcome)
    modifies fs
    ensures outcome != Rejected
    ensures WriteEffect(old(fs.disk), fs.disk, file, content, outcome)
    ensures old(fs.disk).Wf() ==> fs.disk.Wf()
  {
    ghost var before := fs.disk;
    var parent := Parent(file);
    if parent.Some? && !fs.disk.Exists(parent.value) {
      var created := fs.CreateDirectories(parent.value);
      if !created {
        return DirectoryFailed;
      }
    }
    assert fs.disk.dirs == Prepared(before, file) && fs.disk.files == before.files;
    var temp := TempPath(file);
    var written := fs.WriteFile(temp, content);
    if written {
      var moved := fs.Move(temp, file);
      if moved {
        return Written;
      }
    }
    if fs.disk.Exists(temp) {
      var removed := fs.DeleteFile(temp);
      return WriteFailed(removed);
    }
    return WriteFailed(true);
  }
}
