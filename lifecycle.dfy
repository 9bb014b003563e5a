/**
  The temporary directory the conversion routes stage files in: which
  paths exist with which content, and, as a ghost record, the order in
  which files were created, written and removed.
 */
module Lifecycle {
  import opened Common

  datatype Event = Created(path: string) | Written(path: string) | Removed(path: string)

  class TempDir {
    var files: map<string, Bytes>
    ghost var log: seq<Event>

    constructor ()
      ensures files == map[] && log == []
    {
      files := map[];
      log := [];
    }

    /** `os.path.exists(path)`. */
    predicate Exists(path: string)
      reads this
    {
      path in files
    }

    /** `tempfile.NamedTemporaryFile(delete=False)`: a new, empty file under a name not in use. */
    method Create() returns (path: string)
      modifies this
      ensures path != "" && path !in old(files)
      ensures files == old(files)[path := []]
      ensures log == old(log) + [Created(path)]
    {
      FreshPathExists(files.Keys);
      path :| path != "" && path !in files;
      files := files[path := []];
      log := log + [Created(path)];
    }

    /** Overwrites an existing file. */
    method Write(path: string, data: Bytes)
      requires path in files
      modifies this
      ensures files == old(files)[path := data]
      ensures log == old(log) + [Written(path)]
    {
      files := files[path := data];
      log := log + [Written(path)];
    }

    /** `os.unlink(path)` of an existing file. */
    method Unlink(path: string)
      requires path in files
      modifies this
      ensures files == old(files) - {path}
      ensures log == old(log) + [Removed(path)]
    {
      files := files - {path};
      log := log + [Removed(path)];
    }

    /** A new file holding `data`: `NamedTemporaryFile(delete=False)`, then `file.save` into it. */
    method Stage(data: Bytes) returns (path: string)
      modifies this
      ensures path != "" && path !in old(files)
      ensures files == old(files)[path := data]
      ensures log == old(log) + [Created(path), Written(path)]
    {
      path := Create();
      Write(path, data);
    }

    /** `if os.path.exists(path): os.unlink(path)`: removal that tolerates a missing file. */
    method RemoveIfExists(path: string)
      modifies this
      ensures files == old(files) - {path}
      ensures log == if path in old(files) then old(log) + [Removed(path)] else old(log)
    {
      if Exists(path) {
        Unlink(path);
      }
    }
  }

  /** An upper bound on the lengths of a finite set of paths. */
  ghost function MaxLength(paths: set<string>): (n: nat)
    ensures forall p :: p in paths ==> |p| <= n
    decreases |paths|
  {
    if paths == {} then 0
    else
      var p :| p in paths;
      var rest := MaxLength(paths - {p});
      if |p| > rest then |p| else rest
  }

  /** However many paths are taken, a non-empty one is still free. */
  lemma FreshPathExists(used: set<string>)
    ensures exists p :: p != "" && p !in used
  {
    var p := seq(MaxLength(used) + 1, _ => 't');
    assert p != "" && p !in used;
  }
}
