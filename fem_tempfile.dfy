/** Temporary directories and files owned by document objects,
    `FemTempfile.py`: each path created for an object is registered under
    the object's unique name, and deleting the object (or its document)
    removes what was registered for it. The paths `mkdtemp` and `mkstemp`
    choose are inputs; the file system is the abstract one of `FileSys`. */
module FemTempfile {
  import opened Wrappers
  import FileSys
  import FemMisc

  /** `_directories` or `_files`: registered paths by unique object name. */
  type Store = map<string, set<string>>

  /** The paths registered under `name`; none when the name is unknown. */
  function PathsOf(store: Store, name: string): set<string> {
    if name in store then store[name] else {}
  }

  /** `_register`: adds `path` to the set kept under `name`. */
  function Register(store: Store, name: string, path: string): Store {
    store[name := PathsOf(store, name) + {path}]
  }

  /** Registering adds the path under the name and changes no other name;
      registering a path twice is registering it once. */
  lemma RegisterSpec(store: Store, name: string, path: string)
    ensures Register(store, name, path).Keys == store.Keys + {name}
    ensures PathsOf(Register(store, name, path), name) == PathsOf(store, name) + {path}
    ensures forall n :: n != name ==> PathsOf(Register(store, name, path), n) == PathsOf(store, n)
    ensures path in PathsOf(store, name) ==> Register(store, name, path) == store
    ensures Register(Register(store, name, path), name, path) == Register(store, name, path)
  {
    if path in PathsOf(store, name) {
      assert PathsOf(store, name) + {path} == store[name];
    }
  }

  /** Where a run of removals got to: the file system at that point, and
      the path whose removal raised OSError, if one did. */
  datatype Removal = Removal(fs: FileSys.FileSystem, failedAt: Option<string>)

  /** `for p in path: shutil.rmtree(p)`; `rmtree` raises unless `p` is an
      existing directory, and the first exception ends the loop. */
  function RmTrees(fs: FileSys.FileSystem, paths: seq<string>): Removal {
    if |paths| == 0 then Removal(fs, None)
    else
      var r := RmTrees(fs, paths[..|paths| - 1]);
      var p := paths[|paths| - 1];
      if r.failedAt.Some? then r
      else if !r.fs.IsDir(p) then Removal(r.fs, Some(p))
      else Removal(FileSys.RemoveTree(r.fs, p), None)
  }

  /** `for p in path: os.remove(p)`; `remove` raises unless `p` is an
      existing regular file. */
  function RmFiles(fs: FileSys.FileSystem, paths: seq<string>): Removal {
    if |paths| == 0 then Removal(fs, None)
    else
      var r := RmFiles(fs, paths[..|paths| - 1]);
      var p := paths[|paths| - 1];
      if r.failedAt.Some? then r
      else if p !in r.fs.files then Removal(r.fs, Some(p))
      else Removal(FileSys.RemoveFile(r.fs, p), None)
  }

  predicate Distinct(paths: seq<string>) {
    forall i, j :: 0 <= i < j < |paths| ==> paths[i] != paths[j]
  }

  /** No path lies inside another of the paths. */
  predicate Unnested(ps: set<string>) {
    forall p, q :: p in ps && q in ps ==> !FileSys.IsUnder(p, q)
  }

  /** Removing trees only removes; a run that gets through removed all the
      trees at once, and every path in it was a distinct existing directory;
      a run that raises names one of the paths. */
  lemma {:induction false} RmTreesSpec(fs: FileSys.FileSystem, paths: seq<string>)
    ensures RmTrees(fs, paths).fs.Within(fs)
    ensures RmTrees(fs, paths).failedAt.Some? ==> RmTrees(fs, paths).failedAt.value in paths
    ensures RmTrees(fs, paths).failedAt.None? ==>
      && RmTrees(fs, paths).fs == FileSys.RemovedTrees(fs, set p | p in paths)
      && (forall i :: 0 <= i < |paths| ==> fs.IsDir(paths[i]))
      && Distinct(paths)
  {
    if |paths| == 0 {
      FileSys.RemovedTreesNone(fs);
      assert (set p | p in paths) == {};
    } else {
      var init, p := paths[..|paths| - 1], paths[|paths| - 1];
      assert paths == init + [p];
      RmTreesSpec(fs, init);
      var r := RmTrees(fs, init);
      if r.failedAt.None? && r.fs.IsDir(p) {
        FileSys.RemoveTreeStep(fs, (set q | q in init), p);
        assert (set q | q in paths) == (set q | q in init) + {p};
        assert p !in init;
        forall i | 0 <= i < |paths| ensures fs.IsDir(paths[i]) {
          if i < |init| {
            assert paths[i] == init[i];
          }
        }
        forall i, j | 0 <= i < j < |paths| ensures paths[i] != paths[j] {
          assert paths[i] == init[i];
          if j < |init| {
            assert paths[j] == init[j];
          }
        }
      }
    }
  }

  /** Distinct existing directories none of which lies inside another are
      all removed without an error. */
  lemma {:induction false} RmTreesSucceeds(fs: FileSys.FileSystem, paths: seq<string>)
    requires forall i :: 0 <= i < |paths| ==> fs.IsDir(paths[i])
    requires Distinct(paths)
    requires Unnested(set p | p in paths)
    ensures RmTrees(fs, paths).failedAt.None?
  {
    if |paths| > 0 {
      var init, p := paths[..|paths| - 1], paths[|paths| - 1];
      assert forall i :: 0 <= i < |init| ==> init[i] == paths[i];
      assert (set q | q in init) <= (set q | q in paths);
      RmTreesSucceeds(fs, init);
      RmTreesSpec(fs, init);
      assert p !in init by {
        forall i | 0 <= i < |init| ensures init[i] != p {
          assert init[i] == paths[i];
        }
      }
      assert !FileSys.UnderAny(p, set q | q in init);
    }
  }

  /** Removing files only removes; a run gets through exactly when every
      path is a distinct existing regular file, and then it removed them. */
  lemma {:induction false} RmFilesSpec(fs: FileSys.FileSystem, paths: seq<string>)
    ensures RmFiles(fs, paths).fs.Within(fs)
    ensures RmFiles(fs, paths).failedAt.Some? ==> RmFiles(fs, paths).failedAt.value in paths
    ensures RmFiles(fs, paths).failedAt.None? <==>
      (forall i :: 0 <= i < |paths| ==> paths[i] in fs.files) && Distinct(paths)
    ensures RmFiles(fs, paths).failedAt.None? ==>
      RmFiles(fs, paths).fs == FileSys.RemovedFiles(fs, set p | p in paths)
  {
    if |paths| == 0 {
      assert (set p | p in paths) == {};
    } else {
      var init, p := paths[..|paths| - 1], paths[|paths| - 1];
      assert paths == init + [p];
      RmFilesSpec(fs, init);
      DistinctSnoc(init, p);
      assert (set q | q in paths) == (set q | q in init) + {p};
      assert (forall i :: 0 <= i < |paths| ==> paths[i] in fs.files)
        <==> (forall i :: 0 <= i < |init| ==> init[i] in fs.files) && p in fs.files
      by {
        assert forall i :: 0 <= i < |init| ==> init[i] == paths[i];
      }
    }
  }

  /** A sequence with one more element is distinct when the shorter one is
      and does not hold the new element. */
  lemma DistinctSnoc(init: seq<string>, p: string)
    ensures Distinct(init + [p]) <==> Distinct(init) && p !in init
  {
    var s := init + [p];
    assert forall i :: 0 <= i < |init| ==> s[i] == init[i];
    if Distinct(init) && p !in init {
      forall i, j | 0 <= i < j < |s| ensures s[i] != s[j] {
        assert s[i] == init[i];
      }
    }
    if Distinct(s) {
      forall i | 0 <= i < |init| ensures init[i] != p {
        assert s[i] != s[|init|];
      }
    }
  }

  /** Every path registered under `name` is gone. */
  predicate Cleared(fs: FileSys.FileSystem, directories: Store, files: Store, name: string) {
    && (forall p :: p in PathsOf(directories, name) ==> !fs.Exists(p))
    && (forall p :: p in PathsOf(files, name) ==> p !in fs.files)
  }

  /** Whatever is cleared stays cleared when more is removed. */
  lemma ClearedWithin(fs: FileSys.FileSystem, fs': FileSys.FileSystem, directories: Store, files: Store, name: string)
    requires Cleared(fs, directories, files, name) && fs'.Within(fs)
    ensures Cleared(fs', directories, files, name)
  {
  }

  /** What `slotDeleteObject` leaves when it gets through: the trees
      registered for the object are gone, and then its registered files. */
  function ObjectDeleted(fs: FileSys.FileSystem, directories: Store, files: Store, obj: FemMisc.DocObject): FileSys.FileSystem {
    var name := FemMisc.UniqueName(obj);
    FileSys.RemovedFiles(FileSys.RemovedTrees(fs, PathsOf(directories, name)), PathsOf(files, name))
  }

  /** The objects deleted one after the other, in order. */
  function ObjectsDeleted(fs: FileSys.FileSystem, directories: Store, files: Store, objs: seq<FemMisc.DocObject>): FileSys.FileSystem {
    if |objs| == 0 then fs
    else ObjectDeleted(ObjectsDeleted(fs, directories, files, objs[..|objs| - 1]), directories, files, objs[|objs| - 1])
  }

  /** `q` goes with the directories registered under `name`: it is one of
      them or lies inside one. */
  predicate InTrees(directories: Store, name: string, q: string) {
    q in PathsOf(directories, name) || FileSys.UnderAny(q, PathsOf(directories, name))
  }

  /** Exactly what deleting the objects removes: a directory survives unless
      it goes with some object's registered directories, and a regular file
      survives unless it does so or is registered as some object's file.
      No other path is touched. */
  lemma {:induction false} ObjectsDeletedExactly(fs: FileSys.FileSystem, directories: Store, files: Store,
                                                 objs: seq<FemMisc.DocObject>, q: string)
    ensures q in ObjectsDeleted(fs, directories, files, objs).dirs <==>
      q in fs.dirs && forall i :: 0 <= i < |objs| ==> !InTrees(directories, FemMisc.UniqueName(objs[i]), q)
    ensures q in ObjectsDeleted(fs, directories, files, objs).files <==>
      q in fs.files && forall i :: 0 <= i < |objs| ==>
        !InTrees(directories, FemMisc.UniqueName(objs[i]), q) && q !in PathsOf(files, FemMisc.UniqueName(objs[i]))
  {
    if |objs| > 0 {
      var init := objs[..|objs| - 1];
      ObjectsDeletedExactly(fs, directories, files, init, q);
      assert forall i :: 0 <= i < |init| ==> init[i] == objs[i];
    }
  }

  /** `p` is registered for `obj`, as a directory or as a file. */
  predicate RegisteredFor(directories: Store, files: Store, obj: FemMisc.DocObject, p: string) {
    p in PathsOf(directories, FemMisc.UniqueName(obj)) || p in PathsOf(files, FemMisc.UniqueName(obj))
  }

  /** The first `k` objects are cleared: nothing registered for them exists. */
  predicate PrefixCleared(fs: FileSys.FileSystem, directories: Store, files: Store, objs: seq<FemMisc.DocObject>, k: nat)
    requires k <= |objs|
  {
    forall j :: 0 <= j < k ==> Cleared(fs, directories, files, FemMisc.UniqueName(objs[j]))
  }

  /** The two module-level registries and the file system they refer to. */
  class TempStore {
    var directories: Store
    var files: Store
    var fs: FileSys.FileSystem

    constructor (fs: FileSys.FileSystem)
      ensures directories == map[] && files == map[] && this.fs == fs
    {
      directories := map[];
      files := map[];
      this.fs := fs;
    }

    /** `createDir`: `path` is the new directory `mkdtemp` made. */
    method CreateDir(obj: FemMisc.DocObject, path: string) returns (r: string)
      requires !fs.Exists(path)
      modifies this
      ensures r == path
      ensures directories == Register(old(directories), FemMisc.UniqueName(obj), path)
      ensures files == old(files)
      ensures fs == old(fs).(dirs := old(fs).dirs + {path})
    {
      fs := fs.(dirs := fs.dirs + {path});
      directories := Register(directories, FemMisc.UniqueName(obj), path);
      r := path;
    }

    /** `createFile`: `path` is the new file `mkstemp` made. */
    method CreateFile(obj: FemMisc.DocObject, path: string) returns (r: string)
      requires !fs.Exists(path)
      modifies this
      ensures r == path
      ensures files == Register(old(files), FemMisc.UniqueName(obj), path)
      ensures directories == old(directories)
      ensures fs == old(fs).(files := old(fs).files + {path})
    {
      fs := fs.(files := fs.files + {path});
      files := Register(files, FemMisc.UniqueName(obj), path);
      r := path;
    }

    /** `rmtree` over the given paths, in order. */
    method RemoveTreeSeq(paths: seq<string>) returns (err: Option<string>)
      modifies this`fs
      ensures Removal(fs, err) == RmTrees(old(fs), paths)
    {
      var i := 0;
      while i < |paths|
        invariant 0 <= i <= |paths|
        invariant RmTrees(old(fs), paths[..i]) == Removal(fs, None)
      {
        assert paths[..i + 1][..i] == paths[..i];
        if !fs.IsDir(paths[i]) {
          RmTreesStopsAtError(old(fs), paths, i + 1);
          return Some(paths[i]);
        }
        fs := FileSys.RemoveTree(fs, paths[i]);
        i := i + 1;
      }
      assert paths[..i] == paths;
      err := None;
    }

    /** `rmtree` over a registered set, in whatever order the set yields. */
    method RemoveTreeSet(ps: set<string>) returns (err: Option<string>)
      modifies this`fs
      ensures fs.Within(old(fs))
      ensures err.Some? ==> err.value in ps
      ensures err.None? ==> fs == FileSys.RemovedTrees(old(fs), ps)
      ensures ps <= old(fs).dirs && Unnested(ps) ==> err.None?
    {
      FileSys.RemovedTreesNone(fs);
      var todo, done := ps, {};
      while todo != {}
        invariant todo + done == ps && todo !! done
        invariant fs == FileSys.RemovedTrees(old(fs), done)
        decreases |todo|
      {
        var p :| p in todo;
        if !fs.IsDir(p) {
          assert !(ps <= old(fs).dirs && Unnested(ps));
          return Some(p);
        }
        FileSys.RemoveTreeStep(old(fs), done, p);
        fs := FileSys.RemoveTree(fs, p);
        todo, done := todo - {p}, done + {p};
      }
      err := None;
    }

    /** `os.remove` over the given paths, in order. */
    method RemoveFileSeq(paths: seq<string>) returns (err: Option<string>)
      modifies this`fs
      ensures Removal(fs, err) == RmFiles(old(fs), paths)
    {
      var i := 0;
      while i < |paths|
        invariant 0 <= i <= |paths|
        invariant RmFiles(old(fs), paths[..i]) == Removal(fs, None)
      {
        assert paths[..i + 1][..i] == paths[..i];
        if paths[i] !in fs.files {
          RmFilesStopsAtError(old(fs), paths, i + 1);
          return Some(paths[i]);
        }
        fs := FileSys.RemoveFile(fs, paths[i]);
        i := i + 1;
      }
      assert paths[..i] == paths;
      err := None;
    }

    /** `os.remove` over a registered set: it gets through exactly when all
        of them are existing regular files, whatever the order. */
    method RemoveFileSet(ps: set<string>) returns (err: Option<string>)
      modifies this`fs
      ensures fs.Within(old(fs))
      ensures err.Some? ==> err.value in ps
      ensures err.None? <==> ps <= old(fs).files
      ensures err.None? ==> fs == FileSys.RemovedFiles(old(fs), ps)
    {
      var todo, done := ps, {};
      while todo != {}
        invariant todo + done == ps && todo !! done
        invariant fs == FileSys.RemovedFiles(old(fs), done)
        invariant done <= old(fs).files
        decreases |todo|
      {
        var p :| p in todo;
        if p !in fs.files {
          return Some(p);
        }
        fs := FileSys.RemoveFile(fs, p);
        todo, done := todo - {p}, done + {p};
      }
      err := None;
    }

    /** `removeDirs(obj, *path)`: nothing happens for an object without
        registered directories; no paths means all registered ones. The
        registries are left as they are. */
    method RemoveDirs(obj: FemMisc.DocObject, paths: seq<string>) returns (err: Option<string>)
      modifies this`fs
      ensures var name := FemMisc.UniqueName(obj);
        && (name !in directories ==> fs == old(fs) && err.None?)
        && (name in directories && |paths| > 0 ==> Removal(fs, err) == RmTrees(old(fs), paths))
        && (|paths| == 0 ==>
             && fs.Within(old(fs))
             && (err.Some? ==> err.value in PathsOf(directories, name))
             && (err.None? ==> fs == FileSys.RemovedTrees(old(fs), PathsOf(directories, name))))
    {
      var name := FemMisc.UniqueName(obj);
      if name in directories {
        if |paths| == 0 {
          err := RemoveTreeSet(directories[name]);
        } else {
          err := RemoveTreeSeq(paths);
        }
      } else {
        FileSys.RemovedTreesNone(fs);
        err := None;
      }
    }

    /** `removeFiles(obj, *path)`, the same for registered files. */
    method RemoveFiles(obj: FemMisc.DocObject, paths: seq<string>) returns (err: Option<string>)
      modifies this`fs
      ensures var name := FemMisc.UniqueName(obj);
        && (name !in files ==> fs == old(fs) && err.None?)
        && (name in files && |paths| > 0 ==> Removal(fs, err) == RmFiles(old(fs), paths))
        && (|paths| == 0 ==>
             && fs.Within(old(fs))
             && (err.Some? ==> err.value in PathsOf(files, name))
             && (err.None? <==> PathsOf(files, name) <= old(fs).files)
             && (err.None? ==> fs == FileSys.RemovedFiles(old(fs), PathsOf(files, name))))
    {
      var name := FemMisc.UniqueName(obj);
      if name in files {
        if |paths| == 0 {
          err := RemoveFileSet(files[name]);
        } else {
          err := RemoveFileSeq(paths);
        }
      } else {
        assert FileSys.RemovedFiles(fs, {}) == fs;
        err := None;
      }
    }

    /** `slotDeleteObject`: the object's directories, then its files; an
        error in the first step skips the second. */
    method SlotDeleteObject(obj: FemMisc.DocObject) returns (err: Option<string>)
      modifies this`fs
      ensures fs.Within(old(fs))
      ensures err.Some? ==> RegisteredFor(directories, files, obj, err.value)
      ensures err.None? ==> fs == ObjectDeleted(old(fs), directories, files, obj)
      ensures err.None? ==> Cleared(fs, directories, files, FemMisc.UniqueName(obj))
    {
      err := RemoveDirs(obj, []);
      if err.Some? {
        return;
      }
      err := RemoveFiles(obj, []);
    }

    /** `slotDeleteDocument`: every object of the document in turn, then the
        document itself, stopping at the first error. */
    method SlotDeleteDocument(doc: FemMisc.DocObject, objects: seq<FemMisc.DocObject>) returns (err: Option<string>)
      modifies this`fs
      ensures fs.Within(old(fs))
      ensures err.None? ==> fs == ObjectsDeleted(old(fs), directories, files, objects + [doc])
      ensures err.None? ==>
        && Cleared(fs, directories, files, FemMisc.UniqueName(doc))
        && forall i :: 0 <= i < |objects| ==> Cleared(fs, directories, files, FemMisc.UniqueName(objects[i]))
      ensures err.Some? ==>
        exists k :: 0 <= k <= |objects| && PrefixCleared(fs, directories, files, objects, k)
                    && RegisteredFor(directories, files, (objects + [doc])[k], err.value)
    {
      var i := 0;
      while i < |objects|
        invariant 0 <= i <= |objects|
        invariant fs.Within(old(fs))
        invariant fs == ObjectsDeleted(old(fs), directories, files, objects[..i])
        invariant forall j :: 0 <= j < i ==> Cleared(fs, directories, files, FemMisc.UniqueName(objects[j]))
      {
        ghost var before := fs;
        err := SlotDeleteObject(objects[i]);
        forall j | 0 <= j < i ensures Cleared(fs, directories, files, FemMisc.UniqueName(objects[j])) {
          ClearedWithin(before, fs, directories, files, FemMisc.UniqueName(objects[j]));
        }
        if err.Some? {
          assert PrefixCleared(fs, directories, files, objects, i);
          assert (objects + [doc])[i] == objects[i];
          return;
        }
        assert objects[..i + 1][..i] == objects[..i];
        i := i + 1;
      }
      ghost var before := fs;
      err := SlotDeleteObject(doc);
      assert (objects + [doc])[..|objects|] == objects[..i];
      forall j | 0 <= j < |objects| ensures Cleared(fs, directories, files, FemMisc.UniqueName(objects[j])) {
        ClearedWithin(before, fs, directories, files, FemMisc.UniqueName(objects[j]));
      }
      assert PrefixCleared(fs, directories, files, objects, |objects|);
      assert (objects + [doc])[|objects|] == doc;
    }
  }

  /** Once a run of tree removals has raised, later paths change nothing. */
  lemma {:induction false} RmTreesStopsAtError(fs: FileSys.FileSystem, paths: seq<string>, n: nat)
    requires n <= |paths|
    requires RmTrees(fs, paths[..n]).failedAt.Some?
    ensures RmTrees(fs, paths) == RmTrees(fs, paths[..n])
    decreases |paths| - n
  {
    if n < |paths| {
      assert paths[..n + 1][..n] == paths[..n];
      RmTreesStopsAtError(fs, paths, n + 1);
    } else {
      assert paths[..n] == paths;
    }
  }

  /** Once a run of file removals has raised, later paths change nothing. */
  lemma {:induction false} RmFilesStopsAtError(fs: FileSys.FileSystem, paths: seq<string>, n: nat)
    requires n <= |paths|
    requires RmFiles(fs, paths[..n]).failedAt.Some?
    ensures RmFiles(fs, paths) == RmFiles(fs, paths[..n])
    decreases |paths| - n
  {
    if n < |paths| {
      assert paths[..n + 1][..n] == paths[..n];
      RmFilesStopsAtError(fs, paths, n + 1);
    } else {
      assert paths[..n] == paths;
    }
  }
}
