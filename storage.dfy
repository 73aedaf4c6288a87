/**
 * The two stores the job reconciles, as state: the local staging folder and
 * the remote object store. Each operation that can fail in the real system
 * takes that outcome as an argument (an oracle), so callers decide it.
 */
module Storage {
  import opened Wrappers
  import opened Shared

  /** `p` is a file of `folder` whose name ends in `.<ext>`. */
  predicate HasExtensionIn(p: string, folder: string, ext: string)
  {
    var suffix := "." + ext;
    |p| >= |folder| + 1 + |suffix| && p[..|folder| + 1] == folder + "/" && p[|p| - |suffix|..] == suffix
  }

  /** The files left after removing every `.<ext>` file of `folder`. */
  function WithoutExtension(files: map<string, Bytes>, folder: string, ext: string): (r: map<string, Bytes>)
    ensures forall p :: p in r <==> p in files && !HasExtensionIn(p, folder, ext)
    ensures forall p :: p in r ==> r[p] == files[p]
  {
    map p | p in files && !HasExtensionIn(p, folder, ext) :: files[p]
  }

  /** The local staging folder, as a map from path to content. */
  class LocalFolder {
    var files: map<string, Bytes>

    constructor (initial: map<string, Bytes>)
      ensures files == initial
    {
      files := initial;
    }

    /** `fs.writeFile(path, data)`; `succeeds` is the outcome the file system chooses. */
    method WriteFile(path: string, data: Bytes, succeeds: bool) returns (ok: bool)
      modifies this
      ensures ok == succeeds
      ensures files == if succeeds then old(files)[path := data] else old(files)
    {
      ok := succeeds;
      if ok {
        files := files[path := data];
      }
    }

    /** `fs.access(path)` followed by `fs.readFile(path)`: None when the file is not there. */
    method ReadFile(path: string) returns (r: Option<Bytes>)
      ensures r == if path in files then Some(files[path]) else None
    {
      if path in files {
        r := Some(files[path]);
      } else {
        r := None;
      }
    }

    /** The external converter's effect: the files it produced appear in the folder. */
    method AddConverted(produced: map<string, Bytes>)
      modifies this
      ensures files == old(files) + produced
    {
      files := files + produced;
    }

    /** `deleteLocalFiles(folder, ext)`: removes every `.<ext>` file of the folder. */
    method DeleteLocalFiles(folder: string, ext: string)
      modifies this
      ensures files == WithoutExtension(old(files), folder, ext)
    {
      files := WithoutExtension(files, folder, ext);
    }
  }

  /** The remote object store, as a map from full object path to content. */
  class RemoteStore {
    var objects: map<string, Bytes>

    constructor (initial: map<string, Bytes>)
      ensures objects == initial
    {
      objects := initial;
    }

    /** `ref.child(path).put(data)`; `succeeds` is the outcome the store chooses. */
    method Put(path: string, data: Bytes, succeeds: bool) returns (ok: bool)
      modifies this
      ensures ok == succeeds
      ensures objects == if succeeds then old(objects)[path := data] else old(objects)
    {
      ok := succeeds;
      if ok {
        objects := objects[path := data];
      }
    }

    /** `file.delete()`; `succeeds` is the outcome the store chooses. */
    method Delete(path: string, succeeds: bool) returns (ok: bool)
      modifies this
      ensures ok == succeeds
      ensures objects == if succeeds then old(objects) - {path} else old(objects)
    {
      ok := succeeds;
      if ok {
        objects := objects - {path};
      }
    }
  }
}
