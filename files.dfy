/**
 * The part of the operating system's filesystem the store touches: regular
 * files with text content and directories. Every mutating step may fail, as
 * an IOException would make it; which steps fail is not under the caller's
 * control, so the bodies choose it nondeterministically.
 */
module Files {
  import opened Wrappers
  import opened Paths

  type Content = string

  /** A snapshot of the filesystem: regular files with their content, and directories. */
  datatype Disk = Disk(files: map<Path, Content>, dirs: set<Path>) {

    /** File.exists: a regular file or a directory is at `p`. */
    predicate Exists(p: Path)
    {
      p in files || p in dirs
    }

    /** File.isFile: a regular file is at `p`. */
    predicate IsFile(p: Path)
    {
      p in files
    }

    /** The directory a new file at `p` goes into is present (a bare name lives in the working directory). */
    predicate ParentPresent(p: Path)
    {
      match Parent(p)
      case None => true
      case Some(d) => d in dirs
    }

    /** Nothing is both a regular file and a directory. */
    predicate Wf()
    {
      files.Keys !! dirs
    }

    /** A directory with no regular file and no directory directly inside it. */
    predicate EmptyDir(p: Path)
    {
      && p in dirs
      && (forall q :: q in files ==> Parent(q) != Some(p))
      && (forall d :: d in dirs ==> Parent(d) != Some(p))
    }

    /** What Files.delete can remove: a regular file or an empty directory. */
    predicate Deletable(p: Path)
    {
      p in files || EmptyDir(p)
    }

    /** The disk once Files.delete(p) has succeeded: the regular file at `p` is gone, or else the directory. */
    function Deleted(p: Path): Disk
    {
      if p in files then Disk(files - {p}, dirs) else Disk(files, dirs - {p})
    }
  }

  class FileSystem {
    var disk: Disk

    constructor(initial: Disk)
      ensures disk == initial
    {
      disk := initial;
    }

    /** Files.createDirectories for one missing directory. */
    method CreateDirectories(dir: Path) returns (ok: bool)
      modifies this
      ensures disk.files == old(disk.files)
      ensures ok ==> disk.dirs == old(disk.dirs) + {dir}
      ensures !ok ==> disk == old(disk)
      ensures dir in old(disk.files) ==> !ok
      ensures old(disk).Wf() ==> disk.Wf()
    {
      if dir in disk.files {
        return false;
      }
      ok :| true;
      if ok {
        disk := disk.(dirs := disk.dirs + {dir});
      }
    }

    /**
     * new FileWriter(p, false) followed by writing `c` and closing: the file is
     * created or truncated and then filled. A failure can strike after the
     * file was opened, leaving a prefix of `c` behind at `p`.
     */
    method WriteFile(p: Path, c: Content) returns (ok: bool)
      modifies this
      ensures disk.dirs == old(disk.dirs)
      ensures ok ==> old(disk).ParentPresent(p) && p !in old(disk.dirs)
      ensures ok ==> disk.files == old(disk.files)[p := c]
      ensures !ok ==> disk.files - {p} == old(disk.files) - {p}
      ensures !ok && p in disk.files ==> disk.files[p] <= c || (p in old(disk.files) && disk.files[p] == old(disk.files)[p])
      ensures old(disk).Wf() ==> disk.Wf()
    {
      if !disk.ParentPresent(p) || p in disk.dirs {
        return false;
      }
      ok :| true;
      if ok {
        disk := disk.(files := disk.files[p := c]);
      } else {
        var truncated: bool :| true;
        if truncated {
          var n :| 0 <= n <= |c|;
          disk := disk.(files := disk.files[p := c[..n]]);
        }
      }
    }

    /** Files.move(src, dst, REPLACE_EXISTING, ATOMIC_MOVE): all or nothing. */
    method Move(src: Path, dst: Path) returns (ok: bool)
      modifies this
      ensures disk.dirs == old(disk.dirs)
      ensures ok ==> src in old(disk.files) && disk.files == (old(disk.files) - {src})[dst := old(disk.files)[src]]
      ensures !ok ==> disk == old(disk)
      ensures old(disk).Wf() ==> disk.Wf()
    {
      if src !in disk.files || dst in disk.dirs {
        return false;
      }
      ok :| true;
      if ok {
        disk := disk.(files := (disk.files - {src})[dst := disk.files[src]]);
      }
    }

    /**
     * Files.delete: removes a regular file or an empty directory. A missing
     * path or a directory with something inside fails, and so may any other
     * attempt.
     */
    method DeleteFile(p: Path) returns (ok: bool)
      modifies this
      ensures ok ==> old(disk).Deletable(p) && disk == old(disk).Deleted(p)
      ensures ok && p in old(disk.files) ==> disk.files == old(disk.files) - {p} && disk.dirs == old(disk.dirs)
      ensures ok && p !in old(disk.files) ==> disk.files == old(disk.files) && disk.dirs == old(disk.dirs) - {p}
      ensures !ok ==> disk == old(disk)
      ensures old(disk).Wf() ==> disk.Wf()
    {
      if !disk.Deletable(p) {
        return false;
      }
      ok :| true;
      if ok {
        disk := disk.Deleted(p);
      }
    }
  }
}
