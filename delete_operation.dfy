/** NormalDelete: remove the file of one id under a directory path. */
module DeleteOperation {
  import opened Wrappers
  import opened Paths
  import opened Files

  /**
   * NormalDelete.delete: a null or empty id or a null path is refused; the
   * target is new File(path, id + ".json"); a missing target or a failed
   * delete returns false with nothing changed. Files.delete removes a
   * regular file or an empty directory, so success removes exactly that
   * entry: the file, or the empty directory standing at that name.
   */
  method NormalDelete(fs: FileSystem, id: Option<string>, path: Option<string>) returns (ok: bool)
    modifies fs
    ensures id.None? || id.value == "" || path.None? ==> !ok
    ensures !ok ==> fs.disk == old(fs.disk)
    ensures ok ==> id.Some? && id.value != "" && path.Some?
    ensures ok ==> old(fs.disk).Deletable(ChildJsonFile(path.value, id.value))
    ensures ok ==> fs.disk == old(fs.disk).Deleted(ChildJsonFile(path.value, id.value))
    ensures ok && ChildJsonFile(path.value, id.value) in old(fs.disk.files) ==>
              fs.disk.files == old(fs.disk.files) - {ChildJsonFile(path.value, id.value)} && fs.disk.dirs == old(fs.disk.dirs)
    ensures ok && ChildJsonFile(path.value, id.value) !in old(fs.disk.files) ==>
              fs.disk.files == old(fs.disk.files) && fs.disk.dirs == old(fs.disk.dirs) - {ChildJsonFile(path.value, id.value)}
    ensures old(fs.disk).Wf() ==> fs.disk.Wf()
  {
    if id.None? || id.value == "" {
      return false;
    }
    if path.None? {
      return false;
    }
    var target := ChildJsonFile(path.value, id.value);
    if !fs.disk.Exists(target) {
      return false;
    }
    ok := fs.DeleteFile(target);
  }
}
