/**
 * The disk driver (`yzh52521\filesystem\Driver`) over an abstract backend.
 * The backend is a store of files (contents and visibility) and a set of
 * directories, held in fields the operations update in place. Which backend
 * call fails, and with which Flysystem exception class, is decided by a
 * per-call oracle argument; a call whose target is absent fails with the
 * class the backend raises for that case.
 */
module Drivers {
  import opened Php
  import opened Errors
  import opened Listing

  /** `PHP_EOL` on the platforms the package targets. */
  const PhpEol := "\n"

  /** A stored file: its contents and its visibility marker. */
  datatype StoredFile = StoredFile(contents: string, visibility: string)

  /** An open stream resource: the handle `fopen` gave it and the bytes it yields. */
  datatype Stream = Stream(handle: nat, data: string)

  /** A `think\File` on the local disk: its real path and its contents. */
  datatype LocalFile = LocalFile(realPath: string, data: string)

  /** What `put` can be handed as contents. */
  datatype Contents =
    | Text(s: string)              // a string, which goes to `write`
    | Resource(stream: Stream)     // a PHP stream resource
    | PsrStream(stream: Stream)    // a PSR-7 `StreamInterface`; `detach()` yields `stream`
    | FileObject(file: LocalFile)  // a `think\File`
    | Upload(file: LocalFile)      // a `think\file\UploadedFile`

  /**
   * The class of the exception a failing backend call raises: the one the
   * oracle names, or else the one the backend raises for a missing target.
   */
  function Cause(fault: Option<Fault>, implied: Fault): (f: Fault)
    ensures fault.Some? ==> f == fault.value
    ensures fault.None? ==> f == implied
  {
    if fault.Some? then fault.value else implied
  }

  /**
   * The visibility a write names: the `visibility` option when it is a
   * string, else the disk's configured `visibility` (which the driver hands
   * to Flysystem as its default), else none.
   */
  function VisibilityFor(options: map<string, Value>, config: map<string, Value>): (v: Option<string>)
    ensures "visibility" in options && options["visibility"].Str? ==> v == Some(options["visibility"].s)
    ensures !("visibility" in options && options["visibility"].Str?) && "visibility" in config && config["visibility"].Str?
            ==> v == Some(config["visibility"].s)
    ensures v.None? <==>
      !("visibility" in options && options["visibility"].Str?) && !("visibility" in config && config["visibility"].Str?)
  {
    if "visibility" in options && options["visibility"].Str? then Some(options["visibility"].s)
    else if "visibility" in config && config["visibility"].Str? then Some(config["visibility"].s)
    else None
  }

  /** A string options argument to `put` names the visibility, whatever the disk configures. */
  lemma StringOptionNamesVisibility(visibility: string, config: map<string, Value>)
    ensures VisibilityFor(NormaliseOptions(Str(visibility)), config) == Some(visibility)
  {
  }

  /**
   * The visibility a written file ends up with: the named one; without one
   * the backend keeps an existing file's visibility, and gives a new file
   * its own default (`fallback`).
   */
  function Recorded(files: map<string, StoredFile>, path: string, named: Option<string>, fallback: string): (v: string)
    ensures named.Some? ==> v == named.value
    ensures named.None? && path in files ==> v == files[path].visibility
    ensures named.None? && path !in files ==> v == fallback
  {
    if named.Some? then named.value else if path in files then files[path].visibility else fallback
  }

  /** What string concatenation makes of `get`'s answer: `null` is the empty string. */
  function AsText(got: Option<string>): (s: string)
    ensures got.Some? ==> s == got.value
    ensures got.None? ==> s == ""
  {
    if got.Some? then got.value else ""
  }

  /** `t` neither starts nor ends with '/'. */
  predicate NoOuterSlash(t: string)
  {
    t == [] || (t[0] != '/' && t[|t| - 1] != '/')
  }

  /**
   * Where `putFileAs` stores a file: `trim($path.'/'.$name, '/')`. The
   * result neither starts nor ends with '/', and is what remains of the
   * joined path once its outer runs of '/' are cut off.
   */
  function StorePath(path: string, name: string): (t: string)
    ensures NoOuterSlash(t)
    ensures |t| <= |path| + 1 + |name|
    ensures TrimmedFrom(path + "/" + name, t, '/')
  {
    Trim(path + "/" + name, '/')
  }

  /** The '/'s inside the joined path are kept: nothing collapses `//`. */
  lemma StorePathKeepsInnerSlashes()
    ensures StorePath("/a//", "b") == "a///b"
  {
    var joined := "/a//" + "/" + "b";
    assert joined == "/a///b";
    assert RTrim(joined, '/') == joined;
    assert joined[1..] == "a///b";
    assert LTrim("a///b", '/') == "a///b";
  }

  /**
   * The store after a write of `data` at `path`: the write happens exactly
   * when the backend does not fail.
   */
  function AfterWrite(files: map<string, StoredFile>, path: string, data: string, named: Option<string>,
                      fallback: string, fault: Option<Fault>): (m: map<string, StoredFile>)
    ensures fault.None? ==> m.Keys == files.Keys + {path}
    ensures fault.None? ==> m[path] == StoredFile(data, Recorded(files, path, named, fallback))
    ensures fault.None? ==> forall p :: p in files && p != path ==> m[p] == files[p]
    ensures fault.Some? ==> m == files
  {
    if fault.None? then files[path := StoredFile(data, Recorded(files, path, named, fallback))] else files
  }

  /**
   * `put`'s answer for contents it hands to `write`: `true` on success,
   * `false` for a swallowed write or visibility failure.
   */
  ghost predicate WriteAnswer(r: Result<Value>, throws: bool, fault: Option<Fault>)
  {
    && (r == Ok(Bool(true)) <==> fault.None?)
    && (r == Ok(Bool(false)) <==> fault.Some? && fault.value in WriteCaught && !throws)
    && (r.Ok? ==> r.value.Bool?)
    && (r.Raised? ==> fault.Some? && r.error == Backend(fault.value))
  }

  /**
   * `put`'s answer for a stream it hands to `writeStream`: `writeStream`'s
   * `false` is discarded, so a swallowed failure also answers `true`.
   */
  ghost predicate StreamAnswer(r: Result<Value>, throws: bool, fault: Option<Fault>)
  {
    && (r == Ok(Bool(true)) <==> fault.None? || (fault.value in WriteCaught && !throws))
    && (r.Ok? ==> r.value == Bool(true))
    && (r.Raised? ==> fault.Some? && r.error == Backend(fault.value))
  }

  /**
   * `putFileAs`'s answer: the stored path whenever `put` returned, which
   * includes a swallowed write failure.
   */
  ghost predicate StoreAnswer(r: Result<Value>, throws: bool, fault: Option<Fault>, target: string)
  {
    && (r.Ok? <==> fault.None? || (fault.value in WriteCaught && !throws))
    && (r.Ok? ==> r.value == Str(target))
    && (r.Raised? ==> fault.Some? && r.error == Backend(fault.value))
  }

  /** A stream answer from `put` becomes `putFileAs`'s answer: the stored path whenever `put` returned. */
  lemma StreamAnswerStores(result: Result<Value>, throws: bool, fault: Option<Fault>, target: string)
    requires StreamAnswer(result, throws, fault)
    ensures result.Ok? ==> Truthy(result.value)
    ensures StoreAnswer(if result.Raised? then Raised(result.error) else Ok(Str(target)), throws, fault, target)
  {
  }

  /**
   * `p` lies beneath the directory. The directory is taken as Flysystem
   * normalises it, without outer '/'s; what remains empty is the root,
   * beneath which everything lies. A path equal to the directory's own
   * is not beneath it.
   */
  predicate Beneath(p: string, directory: string)
  {
    var dir := Trim(directory, '/');
    dir == "" || dir + "/" <= p
  }

  /** `p` is the directory itself or lies beneath it. */
  predicate Within(p: string, directory: string)
  {
    p == Trim(directory, '/') || Beneath(p, directory)
  }

  /** Everything lies beneath the root, however it is written. */
  lemma EverythingWithinRoot(p: string)
    ensures Within(p, "") && Within(p, "/")
  {
    assert RTrim("/", '/') == "";
  }

  /** A trailing '/' names the same directory. */
  lemma TrailingSlashNamesSameDirectory()
    ensures Within("a/b", "a/") && Within("a", "a/") && !Within("ab", "a/")
  {
    TrimTrailingSlash();
    assert "a" + "/" == "a/";
    assert "a/" <= "a/b";
    assert "ab"[1] != "a/"[1];
  }

  lemma TrimTrailingSlash()
    ensures Trim("a/", '/') == "a"
  {
    assert "a/"[..|"a/"| - 1] == "a";
    assert RTrim("a", '/') == "a";
    assert LTrim("a", '/') == "a";
  }

  /** The outcome of `delete` and the store it leaves. */
  datatype Deletion = Deletion(result: Result<bool>, remaining: map<string, StoredFile>)

  /**
   * `delete`'s loop, path by path: a path without a fault is removed; a
   * fault of a caught class with `throw` off clears the success flag and the
   * loop goes on; any other fault ends the call by raising.
   */
  function DeleteAll(paths: seq<string>, faults: map<string, Fault>, throws: bool,
                     files: map<string, StoredFile>, success: bool): (d: Deletion)
    ensures d.remaining.Keys <= files.Keys
    ensures forall p :: p in d.remaining ==> d.remaining[p] == files[p]
    ensures d.result == Ok(true) ==> success
    decreases |paths|
  {
    if paths == [] then Deletion(Ok(success), files)
    else if paths[0] in faults then
      match Guard(DeleteCaught, throws, faults[paths[0]], false)
      case Raised(e) => Deletion(Raised(e), files)
      case Ok(_) => DeleteAll(paths[1..], faults, throws, files, false)
    else DeleteAll(paths[1..], faults, throws, files - {paths[0]}, success)
  }

  /** The listed paths that the backend deletes without a fault. */
  function Unfaulted(paths: seq<string>, faults: map<string, Fault>): set<string>
  {
    set p | p in paths && p !in faults
  }

  /**
   * With `throw` off and every fault of the caught class, `delete` attempts
   * every path, removes each one that did not fail, and answers `true`
   * exactly when none failed.
   */
  lemma {:induction false} DeleteAllSoft(paths: seq<string>, faults: map<string, Fault>,
                                         files: map<string, StoredFile>, success: bool)
    requires forall i :: 0 <= i < |paths| && paths[i] in faults ==> faults[paths[i]] in DeleteCaught
    ensures DeleteAll(paths, faults, false, files, success)
         == Deletion(Ok(success && forall i :: 0 <= i < |paths| ==> paths[i] !in faults),
                     files - Unfaulted(paths, faults))
    decreases |paths|
  {
    if paths == [] {
      assert Unfaulted(paths, faults) == {};
      assert files - {} == files;
    } else {
      var rest := paths[1..];
      assert forall i :: 0 <= i < |rest| && rest[i] in faults ==> faults[rest[i]] in DeleteCaught by {
        forall i | 0 <= i < |rest| && rest[i] in faults ensures faults[rest[i]] in DeleteCaught {
          assert rest[i] == paths[i + 1];
        }
      }
      assert paths == [paths[0]] + rest;
      assert (forall i :: 0 <= i < |paths| ==> paths[i] !in faults)
         <==> paths[0] !in faults && (forall i :: 0 <= i < |rest| ==> rest[i] !in faults) by {
        if forall i :: 0 <= i < |rest| ==> rest[i] !in faults {
          forall i | 0 < i < |paths| ensures paths[i] !in faults { assert paths[i] == rest[i - 1]; }
        }
      }
      if paths[0] in faults {
        DeleteAllSoft(rest, faults, files, false);
        assert Unfaulted(paths, faults) == Unfaulted(rest, faults);
      } else {
        DeleteAllSoft(rest, faults, files - {paths[0]}, success);
        assert Unfaulted(paths, faults) == {paths[0]} + Unfaulted(rest, faults);
        assert files - {paths[0]} - Unfaulted(rest, faults) == files - Unfaulted(paths, faults);
      }
    }
  }

  /**
   * With `throw` on, `delete` raises the first path's fault; the paths
   * before it are deleted and the ones after it are not attempted.
   */
  lemma {:induction false} DeleteAllThrows(paths: seq<string>, faults: map<string, Fault>,
                                           files: map<string, StoredFile>, success: bool, k: nat)
    requires k < |paths| && paths[k] in faults
    requires forall i :: 0 <= i < k ==> paths[i] !in faults
    ensures DeleteAll(paths, faults, true, files, success)
         == Deletion(Raised(Backend(faults[paths[k]])), files - set p | p in paths[..k])
    decreases k
  {
    if k == 0 {
      assert (set p | p in paths[..k]) == {};
      assert files - {} == files;
    } else {
      var rest := paths[1..];
      assert paths[0] !in faults;
      assert rest[k - 1] == paths[k];
      assert forall i :: 0 <= i < k - 1 ==> rest[i] !in faults by {
        forall i | 0 <= i < k - 1 ensures rest[i] !in faults { assert rest[i] == paths[i + 1]; }
      }
      DeleteAllThrows(rest, faults, files - {paths[0]}, success, k - 1);
      var before := set p | p in paths[..k];
      var shorter := rest[..k - 1];
      var later := set p | p in shorter;
      assert paths[..k] == [paths[0]] + shorter;
      assert before == {paths[0]} + later;
      assert files - {paths[0]} - later == files - before;
    }
  }

  /** Without any fault, `delete` removes every listed path and answers `true`. */
  lemma {:induction false} DeleteAllClean(paths: seq<string>, faults: map<string, Fault>, throws: bool,
                                          files: map<string, StoredFile>)
    requires forall i :: 0 <= i < |paths| ==> paths[i] !in faults
    ensures DeleteAll(paths, faults, throws, files, true) == Deletion(Ok(true), files - set p | p in paths)
    decreases |paths|
  {
    if paths == [] {
      assert (set p | p in paths) == {};
      assert files - {} == files;
    } else {
      var rest := paths[1..];
      assert forall i :: 0 <= i < |rest| ==> rest[i] !in faults by {
        forall i | 0 <= i < |rest| ensures rest[i] !in faults { assert rest[i] == paths[i + 1]; }
      }
      DeleteAllClean(rest, faults, throws, files - {paths[0]});
      assert paths == [paths[0]] + rest;
      assert (set p | p in paths) == {paths[0]} + (set p | p in rest);
      assert files - {paths[0]} - (set p | p in rest) == files - (set p | p in paths);
    }
  }

  class Driver {
    /** The backend's files, by path. */
    var files: map<string, StoredFile>
    /** The backend's directories. */
    var directories: set<string>
    /** Handles of the stream resources the driver opened and has not closed. */
    var open: set<nat>
    /** The handle the next opened stream receives. */
    var nextHandle: nat

    /** The disk's configuration array. */
    const config: map<string, Value>
    /**
     * The backend's `listContents(directory, recursive)` over a store, in
     * the backend's own order.
     */
    const listContents: (map<string, StoredFile>, set<string>, string, bool) -> seq<StorageEntry>
    /** `File::hashName($rule)`: the name a file is stored under by `putFile`. */
    const hashName: (LocalFile, Value) -> string
    /** The visibility the backend gives a new file written without one. */
    const newFileVisibility: string

    /** Every open handle was handed out before `nextHandle`. */
    ghost predicate Valid()
      reads this
    {
      forall h :: h in open ==> h < nextHandle
    }

    constructor (config: map<string, Value>,
                 listContents: (map<string, StoredFile>, set<string>, string, bool) -> seq<StorageEntry>,
                 hashName: (LocalFile, Value) -> string, newFileVisibility: string,
                 files: map<string, StoredFile>, directories: set<string>)
      ensures Valid()
      ensures this.config == config && this.listContents == listContents && this.hashName == hashName
      ensures this.newFileVisibility == newFileVisibility
      ensures this.files == files && this.directories == directories
      ensures open == {} && nextHandle == 0
    {
      this.config := config;
      this.listContents := listContents;
      this.hashName := hashName;
      this.newFileVisibility := newFileVisibility;
      this.files := files;
      this.directories := directories;
      open := {};
      nextHandle := 0;
    }

    /** `exists` (Flysystem's `has`): a file or a directory is at `path`. */
    function Exists(path: string): (b: bool)
      reads this
      ensures b <==> FileExists(path) || DirectoryExists(path)
    {
      path in files || path in directories
    }

    /** `fileExists`: exactly the paths a faultless `get` reads contents from. */
    function FileExists(path: string): (b: bool)
      reads this
      ensures b <==> Get(path, None).Ok? && Get(path, None).value.Some?
    {
      path in files
    }

    /** `directoryExists`: the store holds a directory at `path`. */
    function DirectoryExists(path: string): (b: bool)
      reads this
      ensures b <==> path in directories
    {
      path in directories
    }

    /** `missing`: neither a file nor a directory is at `path`. */
    function Missing(path: string): (b: bool)
      reads this
      ensures b <==> path !in files && path !in directories
      ensures b <==> !Exists(path)
    {
      !Exists(path)
    }

    /** `fileMissing`: no file is at `path`. */
    function FileMissing(path: string): (b: bool)
      reads this
      ensures b <==> path !in files
      ensures b <==> !FileExists(path)
    {
      !FileExists(path)
    }

    /** `directoryMissing`: no directory is at `path`. */
    function DirectoryMissing(path: string): (b: bool)
      reads this
      ensures b <==> path !in directories
      ensures b <==> !DirectoryExists(path)
    {
      !DirectoryExists(path)
    }

    /**
     * `get`: the contents of the file, or `null` when reading failed with
     * `UnableToReadFile` and `throw` is off.
     */
    function Get(path: string, fault: Option<Fault>): (r: Result<Option<string>>)
      reads this
      ensures r.Ok? && r.value.Some? <==> fault.None? && path in files
      ensures fault.None? && path in files ==> r == Ok(Some(files[path].contents))
      ensures r == Ok(None) <==>
        !(fault.None? && path in files) && Cause(fault, UnableToReadFile) == UnableToReadFile && !ThrowsExceptions(config)
      ensures r.Raised? ==> r.error == Backend(Cause(fault, UnableToReadFile))
    {
      match BackendFault(fault, path in files, UnableToReadFile)
      case None => Ok(Some(files[path].contents))
      case Some(f) => Guard(ReadCaught, ThrowsExceptions(config), f, None)
    }

    /** `size`: unguarded; any failure reaches the caller whatever `throw` says. */
    function Size(path: string, fault: Option<Fault>): (r: Result<nat>)
      reads this
      ensures r.Ok? <==> fault.None? && path in files
      ensures r.Ok? ==> r.value == |files[path].contents|
      ensures r.Raised? ==> r.error == Backend(Cause(fault, UnableToRetrieveMetadata))
    {
      match BackendFault(fault, path in files, UnableToRetrieveMetadata)
      case None => Ok(|files[path].contents|)
      case Some(f) => Raised(Backend(f))
    }

    /**
     * `lastModified`: unguarded; `stamp` is the time the backend reports
     * for an existing file.
     */
    function LastModified(path: string, fault: Option<Fault>, stamp: int): (r: Result<int>)
      reads this
      ensures r.Ok? <==> fault.None? && path in files
      ensures r.Ok? ==> r.value == stamp
      ensures r.Raised? ==> r.error == Backend(Cause(fault, UnableToRetrieveMetadata))
    {
      match BackendFault(fault, path in files, UnableToRetrieveMetadata)
      case None => Ok(stamp)
      case Some(f) => Raised(Backend(f))
    }

    /**
     * `mimeType`: the type the backend detects (`detected`), or `false` when
     * it failed with `UnableToRetrieveMetadata` and `throw` is off.
     */
    function MimeType(path: string, fault: Option<Fault>, detected: string): (r: Result<Value>)
      reads this
      ensures r == Ok(Str(detected)) <==> fault.None? && path in files
      ensures r == Ok(Bool(false)) <==>
        !(fault.None? && path in files) && Cause(fault, UnableToRetrieveMetadata) == UnableToRetrieveMetadata
        && !ThrowsExceptions(config)
      ensures r.Raised? ==> r.error == Backend(Cause(fault, UnableToRetrieveMetadata))
      ensures r.Ok? ==> r == Ok(Str(detected)) || r == Ok(Bool(false))
    {
      match BackendFault(fault, path in files, UnableToRetrieveMetadata)
      case None => Ok(Str(detected))
      case Some(f) => Guard(MetadataCaught, ThrowsExceptions(config), f, Bool(false))
    }

    /**
     * `getVisibility`: unguarded; `public` exactly when the backend records
     * the public marker, `private` otherwise.
     */
    function GetVisibility(path: string, fault: Option<Fault>): (r: Result<string>)
      reads this
      ensures r.Ok? <==> fault.None? && path in files
      ensures r.Ok? ==> (r.value == Public <==> files[path].visibility == Public)
      ensures r.Ok? ==> (r.value == Private <==> files[path].visibility != Public)
      ensures r.Raised? ==> r.error == Backend(Cause(fault, UnableToRetrieveMetadata))
    {
      match BackendFault(fault, path in files, UnableToRetrieveMetadata)
      case None => Ok(VisibilityName(files[path].visibility))
      case Some(f) => Raised(Backend(f))
    }

    /**
     * `readStream`: a freshly opened stream over the file's contents, or
     * `null` when reading failed with `UnableToReadFile` and `throw` is off.
     */
    method ReadStream(path: string, fault: Option<Fault>) returns (r: Result<Option<Stream>>)
      requires Valid()
      modifies this
      ensures Valid()
      ensures files == old(files) && directories == old(directories)
      ensures r.Ok? && r.value.Some? <==> fault.None? && path in files
      ensures r.Ok? && r.value.Some? ==>
        && r.value.value == Stream(old(nextHandle), files[path].contents)
        && old(nextHandle) !in old(open)
        && open == old(open) + {old(nextHandle)} && nextHandle == old(nextHandle) + 1
      ensures !(r.Ok? && r.value.Some?) ==> open == old(open) && nextHandle == old(nextHandle)
      ensures r == Ok(None) <==>
        !(fault.None? && path in files) && Cause(fault, UnableToReadFile) == UnableToReadFile && !ThrowsExceptions(config)
      ensures r.Raised? ==> r.error == Backend(Cause(fault, UnableToReadFile))
    {
      var f := BackendFault(fault, path in files, UnableToReadFile);
      if f.None? {
        var h := nextHandle;
        open := open + {h};
        nextHandle := nextHandle + 1;
        r := Ok(Some(Stream(h, files[path].contents)));
      } else {
        r := Guard(ReadCaught, ThrowsExceptions(config), f.value, None);
      }
    }

    /**
     * `writeStream`: stores what the stream yields; `true` on success,
     * `false` when the write or the visibility failed and `throw` is off.
     */
    method WriteStream(path: string, stream: Stream, options: map<string, Value>, fault: Option<Fault>)
      returns (r: Result<bool>)
      modifies this
      ensures r == Ok(true) <==> fault.None?
      ensures r == Ok(false) <==> fault.Some? && fault.value in WriteCaught && !ThrowsExceptions(config)
      ensures r.Raised? ==> fault.Some? && r.error == Backend(fault.value)
      ensures files == AfterWrite(old(files), path, stream.data, VisibilityFor(options, config), newFileVisibility, fault)
      ensures directories == old(directories) && open == old(open) && nextHandle == old(nextHandle)
    {
      r := Attempt(WriteCaught, ThrowsExceptions(config), fault);
      if fault.None? {
        files := files[path := StoredFile(stream.data, Recorded(files, path, VisibilityFor(options, config), newFileVisibility))];
      }
    }

    /** `setVisibility`: records the new marker; `false` on a swallowed failure. */
    method SetVisibility(path: string, visibility: string, fault: Option<Fault>) returns (r: Result<bool>)
      modifies this
      ensures r == Ok(true) <==> fault.None? && path in old(files)
      ensures r == Ok(false) <==>
        !(fault.None? && path in old(files)) && Cause(fault, UnableToSetVisibility) == UnableToSetVisibility
        && !ThrowsExceptions(config)
      ensures r.Raised? ==> r.error == Backend(Cause(fault, UnableToSetVisibility))
      ensures files == if r == Ok(true) then old(files)[path := old(files)[path].(visibility := visibility)]
                       else old(files)
      ensures directories == old(directories) && open == old(open) && nextHandle == old(nextHandle)
    {
      var f := BackendFault(fault, path in files, UnableToSetVisibility);
      r := Attempt(VisibilityCaught, ThrowsExceptions(config), f);
      if f.None? {
        files := files[path := files[path].(visibility := visibility)];
      }
    }

    /** `copy`: `to` receives `from`'s file; `false` on a swallowed failure. */
    method Copy(from: string, to: string, fault: Option<Fault>) returns (r: Result<bool>)
      modifies this
      ensures r == Ok(true) <==> fault.None? && from in old(files)
      ensures r == Ok(false) <==>
        !(fault.None? && from in old(files)) && Cause(fault, UnableToCopyFile) == UnableToCopyFile
        && !ThrowsExceptions(config)
      ensures r.Raised? ==> r.error == Backend(Cause(fault, UnableToCopyFile))
      ensures files == if r == Ok(true) then old(files)[to := old(files)[from]] else old(files)
      ensures directories == old(directories) && open == old(open) && nextHandle == old(nextHandle)
    {
      var f := BackendFault(fault, from in files, UnableToCopyFile);
      r := Attempt(CopyCaught, ThrowsExceptions(config), f);
      if f.None? {
        files := files[to := files[from]];
      }
    }

    /** `move`: the file leaves `from` for `to`; `false` on a swallowed failure. */
    method Move(from: string, to: string, fault: Option<Fault>) returns (r: Result<bool>)
      modifies this
      ensures r == Ok(true) <==> fault.None? && from in old(files)
      ensures r == Ok(false) <==>
        !(fault.None? && from in old(files)) && Cause(fault, UnableToMoveFile) == UnableToMoveFile
        && !ThrowsExceptions(config)
      ensures r.Raised? ==> r.error == Backend(Cause(fault, UnableToMoveFile))
      ensures files == if r == Ok(true) then (old(files) - {from})[to := old(files)[from]] else old(files)
      ensures directories == old(directories) && open == old(open) && nextHandle == old(nextHandle)
    {
      var f := BackendFault(fault, from in files, UnableToMoveFile);
      r := Attempt(MoveCaught, ThrowsExceptions(config), f);
      if f.None? {
        files := (files - {from})[to := files[from]];
      }
    }

    /**
     * `delete`: removes each path in turn. `faults` names the paths whose
     * deletion fails and how; deleting an absent path succeeds.
     */
    method Delete(paths: seq<string>, faults: map<string, Fault>) returns (r: Result<bool>)
      modifies this
      ensures Deletion(r, files) == DeleteAll(paths, faults, ThrowsExceptions(config), old(files), true)
      ensures directories == old(directories) && open == old(open) && nextHandle == old(nextHandle)
    {
      var success := true;
      var i := 0;
      while i < |paths|
        invariant 0 <= i <= |paths|
        invariant DeleteAll(paths[i..], faults, ThrowsExceptions(config), files, success)
               == DeleteAll(paths, faults, ThrowsExceptions(config), old(files), true)
        invariant directories == old(directories) && open == old(open) && nextHandle == old(nextHandle)
      {
        var path := paths[i];
        assert paths[i..][0] == path && paths[i..][1..] == paths[i + 1..];
        if path in faults {
          var outcome := Guard(DeleteCaught, ThrowsExceptions(config), faults[path], false);
          if outcome.Raised? {
            r := Raised(outcome.error);
            return;
          }
          success := false;
        } else {
          files := files - {path};
        }
        i := i + 1;
      }
      r := Ok(success);
    }

    /**
     * `prepend`: an existing file becomes `data`, the separator and its old
     * contents; an absent one becomes `data`.
     */
    method Prepend(path: string, data: string, readFault: Option<Fault>, writeFault: Option<Fault>,
                   separator: string := PhpEol)
      returns (r: Result<Value>)
      requires Valid()
      modifies this
      ensures Valid()
      ensures path in old(files) && old(Get(path, readFault)).Raised? ==>
        r == Raised(old(Get(path, readFault)).error) && files == old(files)
      ensures !(path in old(files) && old(Get(path, readFault)).Raised?) ==>
        var text := if path in old(files) then data + separator + AsText(old(Get(path, readFault)).value) else data;
        && (r == Ok(Bool(true)) <==> writeFault.None?)
        && (r == Ok(Bool(false)) <==>
              writeFault.Some? && writeFault.value in WriteCaught && !ThrowsExceptions(config))
        && (r.Ok? ==> r.value.Bool?)
        && (r.Raised? ==> writeFault.Some? && r.error == Backend(writeFault.value))
        && files == AfterWrite(old(files), path, text, VisibilityFor(map[], config), newFileVisibility, writeFault)
      ensures directories == old(directories) && open == old(open) && nextHandle == old(nextHandle)
    {
      if FileExists(path) {
        var current := Get(path, readFault);
        if current.Raised? {
          return Raised(current.error);
        }
        r := Put(path, Text(data + separator + AsText(current.value)), Arr(map[]), writeFault);
      } else {
        r := Put(path, Text(data), Arr(map[]), writeFault);
      }
    }

    /**
     * `append`: an existing file becomes its old contents, the separator and
     * `data`; an absent one becomes `data`.
     */
    method Append(path: string, data: string, readFault: Option<Fault>, writeFault: Option<Fault>,
                  separator: string := PhpEol)
      returns (r: Result<Value>)
      requires Valid()
      modifies this
      ensures Valid()
      ensures path in old(files) && old(Get(path, readFault)).Raised? ==>
        r == Raised(old(Get(path, readFault)).error) && files == old(files)
      ensures !(path in old(files) && old(Get(path, readFault)).Raised?) ==>
        var text := if path in old(files) then AsText(old(Get(path, readFault)).value) + separator + data else data;
        && (r == Ok(Bool(true)) <==> writeFault.None?)
        && (r == Ok(Bool(false)) <==>
              writeFault.Some? && writeFault.value in WriteCaught && !ThrowsExceptions(config))
        && (r.Ok? ==> r.value.Bool?)
        && (r.Raised? ==> writeFault.Some? && r.error == Backend(writeFault.value))
        && files == AfterWrite(old(files), path, text, VisibilityFor(map[], config), newFileVisibility, writeFault)
      ensures directories == old(directories) && open == old(open) && nextHandle == old(nextHandle)
    {
      if FileExists(path) {
        var current := Get(path, readFault);
        if current.Raised? {
          return Raised(current.error);
        }
        r := Put(path, Text(AsText(current.value) + separator + data), Arr(map[]), writeFault);
      } else {
        r := Put(path, Text(data), Arr(map[]), writeFault);
      }
    }

    /**
     * `put`. The options are normalised first. A file goes to `putFile` with
     * the options in its naming-rule slot; a stream goes to `writeStream`,
     * whose `false` is discarded; anything else is written, and a write or
     * visibility failure gives `false` when `throw` is off.
     */
    method Put(path: string, contents: Contents, options: Value, fault: Option<Fault>) returns (r: Result<Value>)
      requires Valid()
      modifies this
      decreases if contents.FileObject? || contents.Upload? then 4 else 0
      ensures Valid()
      ensures directories == old(directories)
      ensures contents.Text? ==>
        && WriteAnswer(r, ThrowsExceptions(config), fault)
        && files == AfterWrite(old(files), path, contents.s, VisibilityFor(NormaliseOptions(options), config), newFileVisibility, fault)
        && open == old(open) && nextHandle == old(nextHandle)
      ensures (contents.Resource? || contents.PsrStream?) ==>
        && StreamAnswer(r, ThrowsExceptions(config), fault)
        && files == AfterWrite(old(files), path, contents.stream.data, VisibilityFor(NormaliseOptions(options), config), newFileVisibility, fault)
        && open == old(open) && nextHandle == old(nextHandle)
      ensures (contents.FileObject? || contents.Upload?) ==>
        var target := StorePath(path, hashName(contents.file, Arr(NormaliseOptions(options))));
        && StoreAnswer(r, ThrowsExceptions(config), fault, target)
        && files == AfterWrite(old(files), target, contents.file.data, VisibilityFor(map[], config), newFileVisibility, fault)
        && (r.Ok? ==> open == old(open))
        && (r.Raised? ==> open == old(open) + {old(nextHandle)})
        && old(nextHandle) !in old(open) && nextHandle == old(nextHandle) + 1
    {
      var opts := NormaliseOptions(options);
      match contents
      case FileObject(file) =>
        r := PutFile(path, file, Arr(opts), map[], fault);
      case Upload(file) =>
        r := PutFile(path, file, Arr(opts), map[], fault);
      case PsrStream(stream) =>
        var written := WriteStream(path, stream, opts, fault);
        match written {
          case Raised(e) => r := Raised(e);  // re-raised by `put`'s own guard, or not caught there
          case Ok(_) => r := Ok(Bool(true));
        }
      case Resource(stream) =>
        var written := WriteStream(path, stream, opts, fault);
        match written {
          case Raised(e) => r := Raised(e);  // re-raised by `put`'s own guard, or not caught there
          case Ok(_) => r := Ok(Bool(true));
        }
      case Text(s) =>
        var written := Attempt(WriteCaught, ThrowsExceptions(config), fault);
        if fault.None? {
          files := files[path := StoredFile(s, Recorded(files, path, VisibilityFor(opts, config), newFileVisibility))];
        }
        r := match written
             case Ok(b) => Ok(Bool(b))
             case Raised(e) => Raised(e);
    }

    /** `putFile`: stores `file` under `path` with the name its naming rule gives. */
    method PutFile(path: string, file: LocalFile, rule: Value, options: map<string, Value>, fault: Option<Fault>)
      returns (r: Result<Value>)
      requires Valid()
      modifies this
      decreases 3
      ensures Valid()
      ensures directories == old(directories)
      ensures StoreAnswer(r, ThrowsExceptions(config), fault, StorePath(path, hashName(file, rule)))
      ensures files == AfterWrite(old(files), StorePath(path, hashName(file, rule)), file.data, VisibilityFor(options, config), newFileVisibility, fault)
      ensures r.Ok? ==> open == old(open)
      ensures r.Raised? ==> open == old(open) + {old(nextHandle)}
      ensures old(nextHandle) !in old(open) && nextHandle == old(nextHandle) + 1
    {
      r := PutFileAs(path, file, hashName(file, rule), options, fault);
    }

    /**
     * `putFileAs`: opens the file, stores it at `path/name` with the outer
     * '/'s trimmed, and answers that path when `put` reports success. The
     * stream is closed only when `put` returns; when it raises, the stream
     * stays open. Since `put` discards a stream write's `false`, the path is
     * answered even when the write failed and `throw` is off.
     */
    method PutFileAs(path: string, file: LocalFile, name: string, options: map<string, Value>, fault: Option<Fault>)
      returns (r: Result<Value>)
      requires Valid()
      modifies this
      decreases 2
      ensures Valid()
      ensures directories == old(directories)
      ensures StoreAnswer(r, ThrowsExceptions(config), fault, StorePath(path, name))
      ensures files == AfterWrite(old(files), StorePath(path, name), file.data, VisibilityFor(options, config), newFileVisibility, fault)
      ensures r.Ok? ==> open == old(open)
      ensures r.Raised? ==> open == old(open) + {old(nextHandle)}
      ensures old(nextHandle) !in old(open) && nextHandle == old(nextHandle) + 1
    {
      r := StoreOpened(StorePath(path, name), file, options, fault);
    }

    /** `putFileAs` once the target path is known: open, `put`, close on return. */
    method StoreOpened(target: string, file: LocalFile, options: map<string, Value>, fault: Option<Fault>)
      returns (r: Result<Value>)
      requires Valid()
      modifies this
      decreases 1
      ensures Valid()
      ensures directories == old(directories)
      ensures StoreAnswer(r, ThrowsExceptions(config), fault, target)
      ensures files == AfterWrite(old(files), target, file.data, VisibilityFor(options, config), newFileVisibility, fault)
      ensures r.Ok? ==> open == old(open)
      ensures r.Raised? ==> open == old(open) + {old(nextHandle)}
      ensures old(nextHandle) !in old(open) && nextHandle == old(nextHandle) + 1
    {
      var handle := nextHandle;
      open := open + {handle};
      nextHandle := nextHandle + 1;
      var result := Put(target, Resource(Stream(handle, file.data)), Arr(options), fault);
      StreamAnswerStores(result, ThrowsExceptions(config), fault, target);
      if result.Raised? {
        return Raised(result.error);
      }
      open := open - {handle};
      r := Ok(if Truthy(result.value) then Str(target) else Bool(false));
    }

    /** `makeDirectory`: `false` on a swallowed creation or visibility failure. */
    method MakeDirectory(path: string, fault: Option<Fault>) returns (r: Result<bool>)
      modifies this
      ensures r == Ok(true) <==> fault.None?
      ensures r == Ok(false) <==> fault.Some? && fault.value in CreateDirectoryCaught && !ThrowsExceptions(config)
      ensures r.Raised? ==> fault.Some? && r.error == Backend(fault.value)
      ensures directories == if fault.None? then old(directories) + {path} else old(directories)
      ensures files == old(files) && open == old(open) && nextHandle == old(nextHandle)
    {
      r := Attempt(CreateDirectoryCaught, ThrowsExceptions(config), fault);
      if fault.None? {
        directories := directories + {path};
      }
    }

    /**
     * `deleteDirectory`: removes the directory with everything beneath it;
     * a file stored under the directory's own path is not beneath it and
     * stays. `false` on a swallowed failure.
     */
    method DeleteDirectory(directory: string, fault: Option<Fault>) returns (r: Result<bool>)
      modifies this
      ensures r == Ok(true) <==> fault.None?
      ensures r == Ok(false) <==> fault.Some? && fault.value in DeleteDirectoryCaught && !ThrowsExceptions(config)
      ensures r.Raised? ==> fault.Some? && r.error == Backend(fault.value)
      ensures fault.None? ==>
        && (forall p :: p in files <==> p in old(files) && !Beneath(p, directory))
        && (forall p :: p in files ==> files[p] == old(files)[p])
        && (forall p :: p in directories <==> p in old(directories) && !Within(p, directory))
      ensures fault.Some? ==> files == old(files) && directories == old(directories)
      ensures open == old(open) && nextHandle == old(nextHandle)
    {
      r := Attempt(DeleteDirectoryCaught, ThrowsExceptions(config), fault);
      if fault.None? {
        files := map p | p in files && !Beneath(p, directory) :: files[p];
        directories := set p | p in directories && !Within(p, directory);
      }
    }

    /** What `listContents` yields for `files`/`directories`: a null directory is the root. */
    function Listed(directory: Option<string>, recursive: bool): seq<StorageEntry>
      reads this
    {
      listContents(files, directories, if directory.Some? then directory.value else "", recursive)
    }

    /** `files`: the paths of the listed files, sorted by path. */
    function Files(directory: Option<string>, recursive: bool): (r: seq<string>)
      reads this
      ensures Sorted(r)
      ensures multiset(r) == multiset(FilePaths(Listed(directory, recursive)))
      ensures forall p :: p in r <==> FileEntry(p) in Listed(directory, recursive)
    {
      SortedFilePaths(Listed(directory, recursive))
    }

    /** `allFiles`: the recursive listing's file paths, sorted by path. */
    function AllFiles(directory: Option<string>): (r: seq<string>)
      reads this
      ensures Sorted(r)
      ensures forall p :: p in r <==> FileEntry(p) in Listed(directory, true)
    {
      Files(directory, true)
    }

    /**
     * `directories`: the paths of the listed directories, in listing order;
     * with the file paths they account for every entry.
     */
    function Directories(directory: Option<string>, recursive: bool): (r: seq<string>)
      reads this
      ensures forall p :: p in r <==> DirectoryEntry(p) in Listed(directory, recursive)
      ensures |r| + |FilePaths(Listed(directory, recursive))| == |Listed(directory, recursive)|
    {
      ListingPartition(Listed(directory, recursive));
      DirectoryPaths(Listed(directory, recursive))
    }

    /** `allDirectories`: the recursive listing's directory paths. */
    function AllDirectories(directory: Option<string>): (r: seq<string>)
      reads this
      ensures forall p :: p in r <==> DirectoryEntry(p) in Listed(directory, true)
    {
      Directories(directory, true)
    }
  }

  /**
   * Appending to an existing file, then reading it back, gives the old
   * contents, a newline and the new data.
   */
  method AppendThenGet(d: Driver, path: string, data: string)
    requires d.Valid() && path in d.files
    modifies d
    ensures d.Get(path, None) == Ok(Some(old(d.files[path].contents) + "\n" + data))
  {
    var r := d.Append(path, data, None, None);
  }

  /**
   * Deleting directory `a` removes it and `a/b`, and keeps a file stored
   * under `a` itself.
   */
  method DeleteDirectoryKeepsFileOfSameName(d: Driver, file: StoredFile)
    requires d.files == map["a" := file, "a/b" := file] && d.directories == {"a"}
    modifies d
    ensures d.files == map["a" := file]
    ensures d.directories == {}
  {
    DirectoryA();
    var r := d.DeleteDirectory("a", None);
    assert forall p :: p in d.files <==> p == "a";
    assert forall p :: p !in d.directories;
  }

  /** The directory `a` holds `a` and `a/b`; only `a/b` lies beneath it. */
  lemma DirectoryA()
    ensures Within("a", "a") && !Beneath("a", "a") && Beneath("a/b", "a")
  {
    assert Trim("a", '/') == "a" by {
      assert RTrim("a", '/') == "a";
      assert LTrim("a", '/') == "a";
    }
    assert "a" + "/" == "a/";
    assert "a/" <= "a/b";
  }

  /**
   * On a disk that configures no visibility, appending to a private file
   * names none, so the file stays private.
   */
  method AppendKeepsVisibility(d: Driver, path: string, data: string)
    requires d.Valid() && path in d.files && d.files[path].visibility == Private
    requires "visibility" !in d.config
    modifies d
    ensures d.GetVisibility(path, None) == Ok(Private)
  {
    var r := d.Append(path, data, None, None);
  }

  /**
   * A string options argument to `put` is the visibility the file is stored
   * with.
   */
  method PutPrivateText(d: Driver, path: string, data: string)
    requires d.Valid()
    modifies d
    ensures d.GetVisibility(path, None) == Ok(Private)
    ensures d.Get(path, None) == Ok(Some(data))
  {
    var r := d.Put(path, Text(data), Str(Private), None);
  }

  /**
   * With `throw` off, a `putFileAs` whose write failed still reports the
   * path, and nothing was stored.
   */
  method PutFileAsReportsPathDespiteFailure(d: Driver, file: LocalFile) returns (r: Result<Value>)
    requires d.Valid() && !ThrowsExceptions(d.config)
    modifies d
    ensures r == Ok(Str(StorePath("/uploads/", "a.txt")))
    ensures d.files == old(d.files)
  {
    r := d.PutFileAs("/uploads/", file, "a.txt", map[], Some(UnableToWriteFile));
  }
}
