/** An abstract POSIX file system: the set of existing regular files and the
    set of existing directories, each named by its path. The core only asks
    whether a path exists, whether it is a directory, and removes files or
    whole directory trees. */
module FileSys {

  datatype FileSystem = FileSystem(files: set<string>, dirs: set<string>) {

    /** `os.path.exists(p)` */
    predicate Exists(p: string) {
      p in files || p in dirs
    }

    /** `os.path.isdir(p)` */
    predicate IsDir(p: string) {
      p in dirs
    }

    /** A consistent tree: no path is both a file and a directory, and
        nothing lies inside a regular file. */
    ghost predicate WellFormed() {
      && files !! dirs
      && forall f, q :: f in files && Exists(q) ==> !IsUnder(q, f)
    }

    /** Nothing exists here that does not exist in `other`. */
    predicate Within(other: FileSystem) {
      files <= other.files && dirs <= other.dirs
    }
  }

  /** `q` lies strictly inside the directory `p`. */
  predicate IsUnder(q: string, p: string) {
    |p| + 1 <= |q| && q[..|p| + 1] == p + "/"
  }

  /** `os.path.join(a, b)` on POSIX: an absolute `b` replaces `a`, and a
      separator is inserted unless `a` is empty or already ends in one. */
  function Join(a: string, b: string): (r: string)
    ensures |b| <= |r| && r[|r| - |b|..] == b
  {
    if |b| > 0 && b[0] == '/' then b
    else if |a| == 0 || a[|a| - 1] == '/' then a + b
    else a + "/" + b
  }

  /** `os.remove(p)` on an existing regular file. */
  function RemoveFile(fs: FileSystem, p: string): (r: FileSystem)
    ensures r.Within(fs) && p !in r.files
    ensures r.dirs == fs.dirs && r.files == fs.files - {p}
  {
    FileSystem(fs.files - {p}, fs.dirs)
  }

  /** `shutil.rmtree(p)`: the directory `p` and everything below it. */
  function RemoveTree(fs: FileSystem, p: string): (r: FileSystem)
    ensures r.Within(fs) && !r.Exists(p)
    ensures forall q :: r.Exists(q) <==> fs.Exists(q) && q != p && !IsUnder(q, p)
  {
    FileSystem(
      set q | q in fs.files && q != p && !IsUnder(q, p),
      set q | q in fs.dirs && q != p && !IsUnder(q, p))
  }

  /** What is left after removing the trees of all of `ps`, in any order. */
  function RemovedTrees(fs: FileSystem, ps: set<string>): (r: FileSystem)
    ensures r.Within(fs)
    ensures forall p :: p in ps ==> !r.Exists(p)
  {
    FileSystem(
      set q | q in fs.files && q !in ps && !UnderAny(q, ps),
      set q | q in fs.dirs && q !in ps && !UnderAny(q, ps))
  }

  /** `q` lies inside one of the directories `ps`. */
  predicate UnderAny(q: string, ps: set<string>) {
    exists p :: p in ps && IsUnder(q, p)
  }

  /** Removing one more tree after several is removing them all at once. */
  lemma RemoveTreeStep(fs: FileSystem, ps: set<string>, p: string)
    ensures RemoveTree(RemovedTrees(fs, ps), p) == RemovedTrees(fs, ps + {p})
  {
    var a, b := RemoveTree(RemovedTrees(fs, ps), p), RemovedTrees(fs, ps + {p});
    forall q ensures UnderAny(q, ps + {p}) <==> UnderAny(q, ps) || IsUnder(q, p) {
      if IsUnder(q, p) {
        assert p in ps + {p};
      }
      if UnderAny(q, ps) {
        var p' :| p' in ps && IsUnder(q, p');
        assert p' in ps + {p};
      }
    }
    assert a.files == b.files;
    assert a.dirs == b.dirs;
  }

  lemma RemovedTreesNone(fs: FileSystem)
    ensures RemovedTrees(fs, {}) == fs
  {
    assert forall q :: !UnderAny(q, {});
  }

  /** What is left after removing all the regular files `ps`. */
  function RemovedFiles(fs: FileSystem, ps: set<string>): (r: FileSystem)
    ensures r.Within(fs)
    ensures forall p :: p in ps ==> p !in r.files
  {
    FileSystem(fs.files - ps, fs.dirs)
  }

  /** A path inside a directory inside `p` lies inside `p`. */
  lemma IsUnderTransitive(x: string, q: string, p: string)
    requires IsUnder(x, q) && IsUnder(q, p)
    ensures IsUnder(x, p)
  {
    assert x[..|p| + 1] == x[..|q| + 1][..|p| + 1];
    assert (q + "/")[..|p| + 1] == q[..|p| + 1];
  }

  /** Removal keeps a consistent tree consistent. */
  lemma RemovalKeepsWellFormed(fs: FileSystem, p: string)
    requires fs.WellFormed()
    ensures RemoveTree(fs, p).WellFormed()
    ensures RemoveFile(fs, p).WellFormed()
  {
    var a, b := RemoveTree(fs, p), RemoveFile(fs, p);
    forall f, q | f in a.files && a.Exists(q) ensures !IsUnder(q, f) {
      assert fs.Exists(q);
    }
    forall f, q | f in b.files && b.Exists(q) ensures !IsUnder(q, f) {
      assert fs.Exists(q);
    }
  }

  /** `os.remove` of a regular file leaves what `rmtree` of it would:
      in a consistent tree nothing lies inside a file. */
  lemma RemoveFileIsRemoveTree(fs: FileSystem, p: string)
    requires fs.WellFormed() && p in fs.files
    ensures RemoveFile(fs, p) == RemoveTree(fs, p)
  {
    var a, b := RemoveFile(fs, p), RemoveTree(fs, p);
    forall q | q in fs.files ensures !IsUnder(q, p) {
      assert fs.Exists(q);
    }
    forall q | q in fs.dirs ensures q != p && !IsUnder(q, p) {
      assert fs.Exists(q);
    }
    assert a.files == b.files;
    assert a.dirs == b.dirs;
  }

  /** Two trees removed one after the other leave the same, in either order,
      so a registered set may be removed in any order. */
  lemma RemoveTreeCommutes(fs: FileSystem, p: string, q: string)
    ensures RemoveTree(RemoveTree(fs, p), q) == RemoveTree(RemoveTree(fs, q), p)
  {
    var a, b := RemoveTree(RemoveTree(fs, p), q), RemoveTree(RemoveTree(fs, q), p);
    assert a.files == b.files;
    assert a.dirs == b.dirs;
  }

  /** Removing a directory inside `p` first, then `p`, leaves what removing
      `p` alone leaves. */
  lemma RemoveTreeAbsorbsNested(fs: FileSystem, p: string, q: string)
    requires IsUnder(q, p)
    ensures RemoveTree(RemoveTree(fs, q), p) == RemoveTree(fs, p)
  {
    var a, b := RemoveTree(RemoveTree(fs, q), p), RemoveTree(fs, p);
    forall x | IsUnder(x, q) ensures IsUnder(x, p) {
      IsUnderTransitive(x, q, p);
    }
    assert a.files == b.files;
    assert a.dirs == b.dirs;
  }
}
