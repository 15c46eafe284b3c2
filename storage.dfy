/**
 * Per-book persistent storage (`src/library/storage.rs`): an in-memory JSON
 * document backed by one file, with the file's modification time recorded so
 * that a change notification reloads only when another writer touched it.
 */
module Storage {
  import opened Wrappers
  import opened Json
  import opened Filesystem

  /** The user directories glib reports and the package name; the configuration module is not part of this model. */
  datatype Environment = Environment(userCacheDir: string, userConfigDir: string, userDataDir: string, pkgName: string)

  /** The folder `get_path` starts from: the user cache or config folder, and the data folder for any other kind. */
  function UserDir(env: Environment, kind: string): string {
    if kind == "cache" then env.userCacheDir
    else if kind == "config" then env.userConfigDir
    else env.userDataDir
  }

  /** The characters application/x-www-form-urlencoded serialization leaves unchanged. */
  predicate Unreserved(c: char) {
    ('a' <= c <= 'z') || ('A' <= c <= 'Z') || ('0' <= c <= '9') || c == '*' || c == '-' || c == '.' || c == '_'
  }

  predicate AllUnreserved(s: string) {
    forall i :: 0 <= i < |s| ==> Unreserved(s[i])
  }

  /**
   * What the model relies on about the form-urlencoded key encoder: distinct
   * keys encode differently, unreserved text is kept as it is, and no
   * encoding contains a path separator.
   */
  ghost predicate IsKeyEncoder(enc: string -> string) {
    && (forall a, b :: enc(a) == enc(b) ==> a == b)
    && (forall s :: AllUnreserved(s) ==> enc(s) == s)
    && (forall s :: '/' !in enc(s))
  }

  function LastDot(s: string): (r: Option<nat>)
    ensures r.Some? ==> r.value < |s| && s[r.value] == '.' && '.' !in s[r.value + 1..]
    ensures r.None? ==> '.' !in s
  {
    if s == [] then None
    else if s[|s| - 1] == '.' then Some(|s| - 1)
    else
      var r := LastDot(s[..|s| - 1]);
      assert s == s[..|s| - 1] + [s[|s| - 1]];
      if r.Some? then
        assert s[r.value + 1..] == s[..|s| - 1][r.value + 1..] + [s[|s| - 1]];
        r
      else r
  }

  /** `Path::file_stem`: the name up to its last '.', unless that dot starts the name. */
  function FileStem(name: string): (stem: string)
    ensures |stem| <= |name| && stem == name[..|stem|]
  {
    var dot := LastDot(name);
    if dot.None? || dot.value == 0 then name else name[..dot.value]
  }

  /** `PathBuf::with_extension` on a file name: the stem, then '.' and the extension unless it is empty. */
  function WithExtension(name: string, ext: string): string {
    FileStem(name) + (if ext == "" then "" else "." + ext)
  }

  /** A file name `Path` keeps as a final component (not empty, "." or ".."). */
  predicate IsNormalName(name: string) {
    name != "" && name != "." && name != ".."
  }

  /** `Storage::get_path` as written: `with_extension` replaces whatever follows the last '.' of the encoded key. */
  function GetPathAsWritten(env: Environment, kind: string, key: string, ext: Option<string>, enc: string -> string): string
    requires IsKeyEncoder(enc) && IsNormalName(enc(key))
  {
    UserDir(env, kind) + "/" + env.pkgName + "/" + WithExtension(enc(key), if ext.Some? then ext.value else "json")
  }

  /** The file `get_path` evidently means: the encoded key with the extension appended. */
  function GetPath(env: Environment, kind: string, key: string, ext: Option<string>, enc: string -> string): string
    requires IsKeyEncoder(enc)
  {
    UserDir(env, kind) + "/" + env.pkgName + "/" + enc(key) + "." + (if ext.Some? then ext.value else "json")
  }

  /** Distinct keys of one kind get distinct files. */
  lemma GetPathInjective(env: Environment, kind: string, a: string, b: string, ext: Option<string>, enc: string -> string)
    requires IsKeyEncoder(enc)
    ensures GetPath(env, kind, a, ext, enc) == GetPath(env, kind, b, ext, enc) ==> a == b
  {
    var dir := UserDir(env, kind) + "/" + env.pkgName + "/";
    var suffix := "." + (if ext.Some? then ext.value else "json");
    if GetPath(env, kind, a, ext, enc) == GetPath(env, kind, b, ext, enc) {
      var pa, pb := GetPath(env, kind, a, ext, enc), GetPath(env, kind, b, ext, enc);
      assert pa == dir + enc(a) + suffix;
      assert pb == dir + enc(b) + suffix;
      assert |enc(a)| == |enc(b)|;
      assert enc(a) == pa[|dir|..|pa| - |suffix|];
      assert enc(b) == pb[|dir|..|pb| - |suffix|];
    }
  }

  /** For a key whose encoding has no '.', the code as written builds the intended path. */
  lemma GetPathAsWrittenAgrees(env: Environment, kind: string, key: string, ext: Option<string>, enc: string -> string)
    requires IsKeyEncoder(enc) && IsNormalName(enc(key)) && '.' !in enc(key)
    requires ext.None? || ext.value != ""
    ensures GetPathAsWritten(env, kind, key, ext, enc) == GetPath(env, kind, key, ext, enc)
  {
  }

  /**
   * As written, two identifiers that differ only after their last '.' share
   * one data file: "book.1" and "book.2" both map to ".../book.json".
   */
  lemma GetPathAsWrittenCollides(env: Environment, enc: string -> string)
    requires IsKeyEncoder(enc)
    ensures GetPathAsWritten(env, "data", "book.1", None, enc) == GetPathAsWritten(env, "data", "book.2", None, enc)
    ensures GetPathAsWritten(env, "data", "book.1", None, enc) == env.userDataDir + "/" + env.pkgName + "/book.json"
  {
    assert AllUnreserved("book.1") by {
      forall i | 0 <= i < 6 ensures Unreserved("book.1"[i]) { }
    }
    assert AllUnreserved("book.2") by {
      forall i | 0 <= i < 6 ensures Unreserved("book.2"[i]) { }
    }
    assert LastDot("book.1") == Some(4);
    assert LastDot("book.2") == Some(4);
  }

  /** As written, the ".png" extension of cover files gives names ending in "..png". */
  lemma CoverPathAsWrittenDoubleDot(env: Environment, enc: string -> string)
    requires IsKeyEncoder(enc)
    ensures GetPathAsWritten(env, "cache", "book", Some(".png"), enc) == env.userCacheDir + "/" + env.pkgName + "/book..png"
  {
    assert AllUnreserved("book") by {
      forall i | 0 <= i < 4 ensures Unreserved("book"[i]) { }
    }
    assert LastDot("book") == None;
  }

  /** The modification time `get_modified` reports: 0 for a file that cannot be queried. */
  function MtimeOrZero(files: map<string, DiskFile>, path: string): nat {
    if path in files then files[path].mtime else 0
  }

  /**
   * `read` as written: `read_to_string(..).expect(..)` panics when the file
   * does not exist and `parse().unwrap()` when it is not JSON; None stands
   * for the panic.
   */
  function ReadAsWritten(files: map<string, DiskFile>, path: string): (r: Option<map<string, Json>>)
    ensures r.Some? <==> path in files && files[path].contents.Document?
  {
    if path in files && files[path].contents.Document? then Some(files[path].contents.doc) else None
  }

  /**
   * `read` as evidently intended: a file not created yet reads as the empty
   * document, the value `get_modified` resets the data to when it cannot
   * find the file.
   */
  function ReadOrEmpty(files: map<string, DiskFile>, path: string): (r: map<string, Json>)
    requires path in files ==> files[path].contents.Document?
  {
    if path in files then files[path].contents.doc else map[]
  }

  /**
   * As written, opening a storage whose file does not exist yet, such as the
   * data file of a book opened for the first time, panics.
   */
  lemma OpenAsWrittenPanicsOnNewFile(files: map<string, DiskFile>, path: string)
    requires path !in files
    ensures ReadAsWritten(files, path) == None
  {
  }

  /**
   * The intended read never fails where the file may be read: it gives what
   * the code as written gives whenever that does not panic, and the empty
   * document for a file that does not exist yet.
   */
  lemma ReadOrEmptyExtendsAsWritten(files: map<string, DiskFile>, path: string)
    requires path in files ==> files[path].contents.Document?
    ensures ReadAsWritten(files, path).Some? ==> ReadOrEmpty(files, path) == ReadAsWritten(files, path).value
    ensures ReadAsWritten(files, path).None? <==> path !in files
    ensures path !in files ==> ReadOrEmpty(files, path) == map[]
  {
  }

  /**
   * One storage file. `modified` is the modification time seen at the last
   * read or own write; the two counters record the "modified" and
   * "externally-modified" signals emitted so far.
   */
  class Storage {
    const disk: Disk
    const path: string
    var data: map<string, Json>
    var modified: nat
    var modifiedSignals: nat
    var externallyModifiedSignals: nat

    /**
     * `Storage::new`: reads the file. A file that does not exist yet opens as
     * an empty document (see `ReadOrEmpty`); an existing file must hold a
     * JSON document.
     */
    constructor (disk: Disk, path: string)
      requires path in disk.files ==> disk.files[path].contents.Document?
      ensures this.disk == disk && this.path == path
      ensures data == ReadOrEmpty(disk.files, path) && modified == MtimeOrZero(disk.files, path)
      ensures modifiedSignals == 0 && externallyModifiedSignals == (if path in disk.files then 0 else 1)
    {
      this.disk := disk;
      this.path := path;
      data := map[];
      modified := 0;
      modifiedSignals := 0;
      externallyModifiedSignals := 0;
      new;
      data := Read();
    }

    /** The file was removed, or rewritten after the recorded modification time, by someone else. */
    predicate ChangedOnDisk()
      reads this, disk
    {
      path !in disk.files || disk.files[path].mtime > modified
    }

    /** The file's modification time; when the file cannot be queried the data is reset, "externally-modified" fires, and 0 is returned. */
    method GetModified() returns (mtime: nat)
      modifies this`data, this`externallyModifiedSignals
      ensures path in disk.files ==> mtime == disk.files[path].mtime && data == old(data)
                                     && externallyModifiedSignals == old(externallyModifiedSignals)
      ensures path !in disk.files ==> mtime == 0 && data == map[]
                                      && externallyModifiedSignals == old(externallyModifiedSignals) + 1
    {
      if path in disk.files {
        mtime := disk.files[path].mtime;
      } else {
        data := map[];
        externallyModifiedSignals := externallyModifiedSignals + 1;
        mtime := 0;
      }
    }

    /**
     * Records the file's modification time and returns its contents, the
     * empty document when the file does not exist (after `GetModified` has
     * reset the data and signalled).
     */
    method Read() returns (doc: map<string, Json>)
      requires path in disk.files ==> disk.files[path].contents.Document?
      modifies this`data, this`externallyModifiedSignals, this`modified
      ensures doc == ReadOrEmpty(disk.files, path) && modified == MtimeOrZero(disk.files, path)
      ensures path in disk.files ==> data == old(data) && externallyModifiedSignals == old(externallyModifiedSignals)
      ensures path !in disk.files ==> data == map[] && externallyModifiedSignals == old(externallyModifiedSignals) + 1
    {
      modified := GetModified();
      doc := if path in disk.files then disk.files[path].contents.doc else map[];
    }

    /**
     * The file monitor's "changed" handler: reloads and signals
     * "externally-modified" only when the file is strictly newer than the
     * recorded time. A file that exists must hold a JSON document.
     */
    method OnChanged()
      requires path in disk.files ==> disk.files[path].contents.Document?
      modifies this`data, this`externallyModifiedSignals, this`modified
      ensures path !in disk.files ==>
                data == map[] && modified == old(modified)
                && externallyModifiedSignals == old(externallyModifiedSignals) + 1
      ensures path in disk.files && disk.files[path].mtime > old(modified) ==>
                data == disk.files[path].contents.doc && modified == disk.files[path].mtime
                && externallyModifiedSignals == old(externallyModifiedSignals) + 1
      ensures path in disk.files && disk.files[path].mtime <= old(modified) ==>
                data == old(data) && modified == old(modified)
                && externallyModifiedSignals == old(externallyModifiedSignals)
    {
      var mtime := GetModified();
      if mtime > modified {
        data := Read();
        externallyModifiedSignals := externallyModifiedSignals + 1;
      }
    }

    /**
     * Writes `doc` to the file. When the parent folder can be created and the
     * file replaced, the new modification time is recorded and "modified"
     * fires; otherwise nothing changes.
     */
    method Write(doc: map<string, Json>, mkdirOk: bool, replaceOk: bool, now: nat)
      modifies this`modified, this`modifiedSignals, disk
      ensures mkdirOk && replaceOk ==>
                disk.files == old(disk.files)[path := DiskFile(Document(doc), now)]
                && modified == now && modifiedSignals == old(modifiedSignals) + 1
      ensures !(mkdirOk && replaceOk) ==>
                disk.files == old(disk.files) && modified == old(modified) && modifiedSignals == old(modifiedSignals)
    {
      if mkdirOk {
        if replaceOk {
          disk.files := disk.files[path := DiskFile(Document(doc), now)];
          modified := disk.files[path].mtime;
          modifiedSignals := modifiedSignals + 1;
        }
      }
    }

    function Get(property: string): (r: Option<Json>)
      reads this
      ensures r.Some? <==> property in data
      ensures r.Some? ==> r.value == data[property]
    {
      if property in data then Some(data[property]) else None
    }

    /** Changes one property in memory only: nothing is written and no signal fires. */
    method Set(property: string, value: Json)
      modifies this`data
      ensures data == old(data)[property := value]
      ensures Get(property) == Some(value)
      ensures forall p :: p != property ==> Get(p) == old(Get(p))
    {
      data := data[property := value];
    }

    /** Deletes the file, ignoring a failure; the in-memory data is kept. */
    method Clear()
      modifies disk
      ensures disk.files == old(disk.files) - {path}
    {
      disk.files := disk.files - {path};
    }
  }

  /** The monitor event that follows the storage's own write reports no external change. */
  method OwnWriteIsNotExternal(s: Storage, doc: map<string, Json>, now: nat)
    modifies s, s.disk
    ensures s.data == old(s.data) && s.externallyModifiedSignals == old(s.externallyModifiedSignals)
    ensures s.disk.files == old(s.disk.files)[s.path := DiskFile(Document(doc), now)]
    ensures s.modifiedSignals == old(s.modifiedSignals) + 1
  {
    s.Write(doc, true, true, now);
    s.OnChanged();
  }
}
