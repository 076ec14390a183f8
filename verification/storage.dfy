/** The file system as the core sees it through `QFile`, `QFileInfo` and
    `QDir`: a map from paths to contents, plus which paths cannot be read,
    cannot be written or are executable, and a limit on how many bytes one
    write can store (a full disk or a file-size limit is what makes a write
    come back short). */
module Storage {
  import opened Base

  /** `QDir(dir).filePath(name)` for a relative `name`. */
  function JoinPath(dir: string, name: string): string
  {
    dir + "/" + name
  }

  /** `ConfigManager::storagePath(rel)`: declared, but its definition is not
      part of this model; it is taken to join `rel` to the storage root. */
  function StoragePath(root: string, rel: string): string
  {
    JoinPath(root, rel)
  }

  /** A path written out as `root/dir` followed by a name is `root`
      joined with the relative path `dir` + name. */
  lemma JoinPathAppend(root: string, dir: string, name: string)
    ensures root + "/" + dir + name == JoinPath(root, dir + name)
  {
  }

  /** The same for a name followed by an extension. */
  lemma JoinPathAppendExt(root: string, dir: string, name: string, ext: string)
    ensures root + "/" + dir + name + ext == JoinPath(root, dir + name + ext)
  {
  }

  function Min(a: nat, b: nat): nat { if a <= b then a else b }

  /** What opening `path` for reading and reading it all gives in a store
      holding `files`, whose paths in `unreadable` cannot be opened: `None`
      when the open fails. */
  function ReadFrom(files: map<string, Bytes>, unreadable: set<string>, path: string): (r: Option<Bytes>)
    ensures r.Some? <==> path in files && path !in unreadable
    ensures r.Some? ==> r.value == files[path]
  {
    if path in files && path !in unreadable then Some(files[path]) else None
  }

  class FileStore {
    var files: map<string, Bytes>
    const unreadable: set<string>
    const unwritable: set<string>
    const executables: set<string>
    /** The most bytes a single write stores. */
    const quota: nat

    constructor (files: map<string, Bytes>, unreadable: set<string>, unwritable: set<string>,
                 executables: set<string>, quota: nat)
      ensures this.files == files && this.unreadable == unreadable
      ensures this.unwritable == unwritable && this.executables == executables
      ensures this.quota == quota
    {
      this.files := files;
      this.unreadable := unreadable;
      this.unwritable := unwritable;
      this.executables := executables;
      this.quota := quota;
    }

    /** `QFileInfo::exists`. */
    predicate Exists(path: string)
      reads this
    {
      path in files
    }

    /** `QFile::open(QIODevice::ReadOnly)` followed by `readAll`: `None` when
        the open fails. */
    function Read(path: string): (r: Option<Bytes>)
      reads this
      ensures r.Some? <==> path in files && path !in unreadable
      ensures r.Some? ==> r.value == files[path]
    {
      ReadFrom(files, unreadable, path)
    }

    /** `QFile::open(QIODevice::WriteOnly | QIODevice::Truncate)` followed by
        one `write`: returns whether the open succeeded and how many bytes the
        write stored; a short write leaves the prefix it stored. */
    method Write(path: string, data: Bytes) returns (didOpen: bool, written: nat)
      modifies this`files
      ensures didOpen == (path !in unwritable)
      ensures didOpen ==> written == Min(|data|, quota) && files == old(files)[path := data[..written]]
      ensures !didOpen ==> written == 0 && files == old(files)
    {
      didOpen := path !in unwritable;
      if !didOpen {
        written := 0;
        return;
      }
      written := Min(|data|, quota);
      files := files[path := data[..written]];
    }

    /** `QFile::remove`. */
    method Remove(path: string)
      modifies this`files
      ensures files == old(files) - {path}
    {
      files := files - {path};
    }

    /** `QFile::copy(src, dst)`: refuses to overwrite, and removes what it
        wrote when the copy comes out short. */
    method Copy(src: string, dst: string) returns (ok: bool)
      modifies this`files
      ensures ok == (old(Read(src)).Some? && dst !in old(files) && dst !in unwritable
                     && |old(Read(src)).value| <= quota)
      ensures ok ==> files == old(files)[dst := old(Read(src)).value]
      ensures !ok ==> files == old(files)
    {
      ok := src in files && src !in unreadable && dst !in files && dst !in unwritable
            && |files[src]| <= quota;
      if ok {
        files := files[dst := files[src]];
      }
    }
  }
}
