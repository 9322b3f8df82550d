/**
 * The java.io.File path rules the store relies on: splitting a path into
 * parent and name, joining a parent and a child, and the temporary sibling
 * used by the atomic write. Paths are plain strings with '/' as separator.
 */
module Paths {
  import opened Wrappers

  type Path = string

  const Separator: char := '/'

  predicate NoSeparator(s: string)
  {
    forall i :: 0 <= i < |s| ==> s[i] != Separator
  }

  predicate EndsWithSeparator(s: string)
  {
    |s| > 0 && s[|s| - 1] == Separator
  }

  predicate StartsWithSeparator(s: string)
  {
    |s| > 0 && s[0] == Separator
  }

  /** A separator already sits where a directory path and a name meet. */
  predicate SeparatedSeam(path: string, name: string)
  {
    EndsWithSeparator(path) || StartsWithSeparator(name)
  }

  /** No two separators in a row: the form java.io.File keeps its paths in. */
  predicate Normalized(p: Path)
  {
    forall i :: 0 < i < |p| ==> !(p[i - 1] == Separator && p[i] == Separator)
  }

  /** Index of the last separator of `p`, or -1 when there is none. */
  function LastSeparator(p: Path): (k: int)
    ensures -1 <= k < |p|
    ensures k >= 0 ==> p[k] == Separator
    ensures forall i :: k < i < |p| ==> p[i] != Separator
  {
    if p == [] then -1
    else if p[|p| - 1] == Separator then |p| - 1
    else LastSeparator(p[..|p| - 1])
  }

  /** File.getParent: everything before the last separator ("/" for a root child), null without one. */
  function Parent(p: Path): Option<Path>
  {
    var k := LastSeparator(p);
    if k < 0 then None
    else if k == 0 then Some([Separator])
    else Some(p[..k])
  }

  /** File.getName: everything after the last separator. */
  function Name(p: Path): (n: string)
    ensures NoSeparator(n)
  {
    p[LastSeparator(p) + 1..]
  }

  /**
   * new File(parent, child): a null parent gives the child alone. Otherwise
   * a separator is put between the two unless one already sits at the seam;
   * an empty parent stands for the root, so a relative child becomes
   * absolute and an absolute one stays as it is.
   */
  function Child(parent: Option<Path>, child: string): Path
  {
    match parent
    case None => child
    case Some(d) =>
      if SeparatedSeam(d, child) then d + child
      else if d == [] then [Separator] + child
      else d + [Separator] + child
  }

  /** new File(file.getParent(), file.getName() + ".tmp"): the temporary file of the atomic write. */
  function TempPath(p: Path): Path
  {
    Child(Parent(p), Name(p) + ".tmp")
  }

  /** Joining a separator-free child under any parent makes that child the name of the result. */
  lemma NameOfChild(parent: Option<Path>, child: string)
    requires NoSeparator(child)
    ensures Name(Child(parent, child)) == child
  {
    assert !StartsWithSeparator(child);
    var s := Child(parent, child);
    var k := LastSeparator(s);
    match parent
    case None =>
    case Some(d) =>
      var pre := if d == [] then [Separator] else if EndsWithSeparator(d) then d else d + [Separator];
      assert s == pre + child;
      assert s[|pre| - 1] == Separator;
      assert forall i :: |pre| <= i < |s| ==> s[i] == child[i - |pre|];
      assert k == |pre| - 1;
      assert s[k + 1..] == child;
  }

  /** The temporary file is a different file from the target, named after it with ".tmp". */
  lemma TempPathDiffers(p: Path)
    ensures Name(TempPath(p)) == Name(p) + ".tmp"
    ensures TempPath(p) != p
  {
    var n := Name(p) + ".tmp";
    assert NoSeparator(n) by {
      forall i | 0 <= i < |n| ensures n[i] != Separator {
        if i < |Name(p)| { assert n[i] == Name(p)[i]; }
      }
    }
    NameOfChild(Parent(p), n);
  }

  /** For a path in normal form the temporary file is the sibling `p + ".tmp"`. */
  lemma TempPathIsSuffixed(p: Path)
    requires Normalized(p)
    ensures TempPath(p) == p + ".tmp"
  {
    var k := LastSeparator(p);
    var n := p[k + 1..];
    if k < 0 {
      assert n == p;
    } else if k == 0 {
      assert Parent(p) == Some([Separator]);
      assert p == [Separator] + n;
    } else {
      var d := p[..k];
      assert Parent(p) == Some(d);
      assert p[k - 1] != Separator;
      assert d[|d| - 1] == p[k - 1];
      assert p == d + [Separator] + n;
    }
  }

  /** Appending separator-free text does not move the last separator. */
  lemma {:induction false} LastSeparatorOfAppend(p: Path, tail: string)
    requires NoSeparator(tail)
    ensures LastSeparator(p + tail) == LastSeparator(p)
  {
    if tail != [] {
      var q := p + tail;
      assert q[|q| - 1] == tail[|tail| - 1];
      assert q[..|q| - 1] == p + tail[..|tail| - 1];
      LastSeparatorOfAppend(p, tail[..|tail| - 1]);
    } else {
      assert p + tail == p;
    }
  }

  /** Parent depends only on the text up to the last separator. */
  lemma ParentOfAppend(p: Path, tail: string)
    requires NoSeparator(tail)
    ensures Parent(p + tail) == Parent(p)
  {
    LastSeparatorOfAppend(p, tail);
    var k := LastSeparator(p);
    if k > 0 {
      assert (p + tail)[..k] == p[..k];
    }
  }

  /** The sibling `p + ".tmp"` has the same parent as `p`. */
  lemma TmpSiblingParent(p: Path)
    ensures Parent(p + ".tmp") == Parent(p)
  {
    var tail := ".tmp";
    assert NoSeparator(tail) by {
      forall i | 0 <= i < |tail| ensures tail[i] != Separator {
        assert tail == ['.', 't', 'm', 'p'];
      }
    }
    ParentOfAppend(p, tail);
  }

  /** For a path in normal form the temporary file sits in the target's own directory. */
  lemma TempPathSameParent(p: Path)
    requires Normalized(p)
    ensures Parent(TempPath(p)) == Parent(p)
  {
    TempPathIsSuffixed(p);
    TmpSiblingParent(p);
  }

  /**
   * new File(path, name) and the concatenation path + name denote the same
   * path exactly when `path` already ends with a separator.
   */
  lemma ChildMatchesConcat(path: Path, name: string)
    ensures Child(Some(path), name) == path + name <==> SeparatedSeam(path, name)
  {
    if !SeparatedSeam(path, name) {
      assert |Child(Some(path), name)| == |path| + |name| + 1;
    }
  }

  /** The file GsonGet, GsonSave and JacksonGet use: the concatenation path + id + ".json", null rendered as "null". */
  function ConcatJsonFile(path: Option<string>, id: Option<string>): Path
  {
    Show(path) + Show(id) + ".json"
  }

  /** The file JacksonSave and NormalDelete use: new File(path, id + ".json"). */
  function ChildJsonFile(path: string, id: string): Path
  {
    Child(Some(path), id + ".json")
  }

  /**
   * The two naming rules reach the same file exactly when a separator sits
   * between the directory path and the id: at the end of the path or at the
   * start of the id.
   */
  lemma NamingRulesAgree(path: string, id: string)
    ensures ChildJsonFile(path, id) == ConcatJsonFile(Some(path), Some(id)) <==> SeparatedSeam(path, id)
  {
    var name := id + ".json";
    assert StartsWithSeparator(name) <==> StartsWithSeparator(id) by {
      if id == [] {
        assert name[0] == '.';
      } else {
        assert name[0] == id[0];
      }
    }
    ChildMatchesConcat(path, name);
    assert path + name == path + id + ".json";
  }

  /** A separator-free id names the file `id + ".json"` directly under the directory. */
  lemma ChildJsonFileName(path: string, id: string)
    requires NoSeparator(id)
    ensures Name(ChildJsonFile(path, id)) == id + ".json"
  {
    var n := id + ".json";
    forall i | 0 <= i < |n|
      ensures n[i] != Separator
    {
      if i < |id| { assert n[i] == id[i]; }
    }
    NameOfChild(Some(path), n);
  }
}
