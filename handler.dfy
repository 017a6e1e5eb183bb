/**
  The SFTP request handler: one `SftpHandler` per channel, bound to a username,
  serving the file-get, file-put, file-command and file-list requests of the
  protocol engine. Each request's path is rewritten in place to the on-disk path
  `Join(BasePath, Username, Clean(path))` before the file system is touched, and
  each operation runs under the handler's mutex.
 */
module Handler {
  import opened Wrappers
  import FilePath
  import Os

  /** An error a handler returns: the file system's, or one made with `fmt.Errorf`. */
  datatype Error = OsError(cause: Os.PathError) | Message(text: string)

  /**
    The package-level `User` and `BasePath`, written by `SetUserAndBasePath` when
    a password login succeeds and read when handlers are made and used.
   */
  class Globals {
    var User: string
    var BasePath: string

    constructor ()
      ensures User == "" && BasePath == ""
    {
      User, BasePath := "", "";
    }

    method SetUserAndBasePath(user: string, basePath: string)
      modifies this
      ensures User == user && BasePath == basePath
    {
      User, BasePath := user, basePath;
    }
  }

  /**
    `sync.Mutex`, sequentially: whether it is held. Taking and releasing it are
    recorded in the trace of the file system it guards, between the calls made
    before and after.
   */
  class Mutex {
    var locked: bool
    const fs: Os.FileSystem

    constructor (fs: Os.FileSystem)
      ensures !locked && this.fs == fs
    {
      locked := false;
      this.fs := fs;
    }

    method Lock()
      requires !locked
      modifies this, fs`trace
      ensures locked && fs.trace == old(fs.trace) + [Os.LockCall]
    {
      locked := true;
      fs.trace := fs.trace + [Os.LockCall];
    }

    method Unlock()
      requires locked
      modifies this, fs`trace
      ensures !locked && fs.trace == old(fs.trace) + [Os.UnlockCall]
    {
      locked := false;
      fs.trace := fs.trace + [Os.UnlockCall];
    }
  }

  /** The fields of `sftp.Request` the handler reads and writes. */
  class Request {
    var Method: string
    var Filepath: string

    constructor (name: string, filepath: string)
      ensures Method == name && Filepath == filepath
    {
      Method, Filepath := name, filepath;
    }
  }

  /** A listing snapshot, served in pages by offset. */
  class FileLister {
    const files: seq<Os.FileInfo>

    constructor (files: seq<Os.FileInfo>)
      ensures this.files == files
    {
      this.files := files;
    }

    /**
      Copies the snapshot from `offset` on into `fileList`, as many entries as
      fit, and returns how many it copied. Past the end it copies nothing.
     */
    method ListAt(fileList: array<Os.FileInfo>, offset: int) returns (n: int, err: Option<Error>)
      requires 0 <= offset
      modifies fileList
      ensures err == None
      ensures offset >= |files| ==> n == 0 && fileList[..] == old(fileList[..])
      ensures offset < |files| ==>
                n == Min(fileList.Length, |files| - offset) &&
                fileList[..n] == files[offset..offset + n] &&
                fileList[n..] == old(fileList[n..])
    {
      if offset >= |files| {
        return 0, None;
      }
      n := Min(fileList.Length, |files| - offset);
      forall i | 0 <= i < n {
        fileList[i] := files[offset + i];
      }
      err := None;
    }
  }

  function Min(a: int, b: int): int
  {
    if a <= b then a else b
  }

  /** The file commands, as a closed variant. */
  datatype FileCmd = Remove | UnsupportedFileCmd(name: string)

  function FileCmdOf(cmd: string): (c: FileCmd)
    ensures c == Remove <==> cmd == "Remove"
    ensures c != Remove ==> c == UnsupportedFileCmd(cmd)
  {
    if cmd == "Remove" then Remove else UnsupportedFileCmd(cmd)
  }

  /** The file-list commands, as a closed variant. */
  datatype ListCmd = List | Stat | UnsupportedListCmd(name: string)

  function ListCmdOf(cmd: string): (c: ListCmd)
    ensures c == List <==> cmd == "List"
    ensures c == Stat <==> cmd == "Stat"
    ensures !c.List? && !c.Stat? ==> c == UnsupportedListCmd(cmd)
  {
    if cmd == "List" then List else if cmd == "Stat" then Stat else UnsupportedListCmd(cmd)
  }

  function UnsupportedFileCmdError(cmd: string): Error
  {
    Message("unsupported file command: " + cmd)
  }

  function UnsupportedListCmdError(cmd: string): Error
  {
    Message("unsupported file list command: " + cmd)
  }

  /** The commands the handler rejects name themselves in the error it returns. */
  lemma RejectedCommandsNamed(cmd: string)
    requires cmd in {"Setstat", "Rename", "Mkdir", "Rmdir", "Symlink", "Readlink"}
    ensures cmd != "Remove" && FileCmdOf(cmd) == UnsupportedFileCmd(cmd)
    ensures ListCmdOf(cmd) == UnsupportedListCmd(cmd)
    ensures var t := UnsupportedFileCmdError(cmd).text; t[|t| - |cmd|..] == cmd
    ensures var t := UnsupportedListCmdError(cmd).text; t[|t| - |cmd|..] == cmd
  {
  }

  /** The result of one lstat per entry, in order. */
  function Lstats(s: Os.State, entries: seq<Os.DirEntry>): (r: seq<Result<Os.FileInfo, Os.PathError>>)
    ensures |r| == |entries|
  {
    if entries == [] then [] else [Os.Lstat(s, entries[0])] + Lstats(s, entries[1..])
  }

  /** Each lstat result is that of the entry at the same position. */
  lemma {:induction false} LstatsAt(s: Os.State, entries: seq<Os.DirEntry>, i: nat)
    requires i < |entries|
    ensures Lstats(s, entries)[i] == Os.Lstat(s, entries[i])
  {
    if i > 0 {
      LstatsAt(s, entries[1..], i - 1);
    }
  }

  /** The snapshot the lister builds from lstat results: all of them, or the first error. */
  function Collect(results: seq<Result<Os.FileInfo, Os.PathError>>): Result<seq<Os.FileInfo>, Os.PathError>
  {
    if results == [] then Success([])
    else if results[0].Failure? then Failure(results[0].error)
    else
      var rest := Collect(results[1..]);
      if rest.Success? then Success([results[0].value] + rest.value) else rest
  }

  /** How many lstats the lister makes: it stops after the first that fails. */
  function Attempts(results: seq<Result<Os.FileInfo, Os.PathError>>): (n: nat)
    ensures n <= |results|
  {
    if results == [] then 0
    else if results[0].Failure? then 1
    else 1 + Attempts(results[1..])
  }

  /** When every lstat succeeds, the snapshot holds each entry's metadata, in order. */
  lemma {:induction false} CollectComplete(results: seq<Result<Os.FileInfo, Os.PathError>>)
    requires forall i :: 0 <= i < |results| ==> results[i].Success?
    ensures Collect(results).Success? && Attempts(results) == |results|
    ensures |Collect(results).value| == |results|
    ensures forall i :: 0 <= i < |results| ==> Collect(results).value[i] == results[i].value
  {
    if results != [] {
      CollectComplete(results[1..]);
    }
  }

  /** Otherwise the lister fails with the first error, after exactly the lstats up to it. */
  lemma {:induction false} CollectFails(results: seq<Result<Os.FileInfo, Os.PathError>>, k: nat)
    requires k < |results| && results[k].Failure?
    requires forall i :: 0 <= i < k ==> results[i].Success?
    ensures Collect(results) == Failure(results[k].error)
    ensures Attempts(results) == k + 1
  {
    if k > 0 {
      CollectFails(results[1..], k - 1);
    }
  }

  /** One more successful lstat extends the snapshot by its metadata. */
  lemma {:induction false} CollectSnoc(results: seq<Result<Os.FileInfo, Os.PathError>>, x: Result<Os.FileInfo, Os.PathError>)
    requires Collect(results).Success? && x.Success?
    ensures Collect(results + [x]) == Success(Collect(results).value + [x.value])
  {
    if results == [] {
      assert [] + [x] == [x];
      assert [x][1..] == [];
      assert Collect([x]) == Success([x.value] + []);
      assert [x.value] + [] == [] + [x.value];
    } else {
      assert (results + [x])[0] == results[0];
      assert (results + [x])[1..] == results[1..] + [x];
      CollectSnoc(results[1..], x);
      assert [results[0].value] + (Collect(results[1..]).value + [x.value]) == ([results[0].value] + Collect(results[1..]).value) + [x.value];
    }
  }

  lemma CollectStops(results: seq<Result<Os.FileInfo, Os.PathError>>, i: nat)
    requires i < |results| && results[i].Failure?
    requires Collect(results[..i]).Success?
    ensures Collect(results) == Failure(results[i].error)
    ensures Attempts(results) == i + 1
  {
    CollectPrefixSucceeds(results, i);
    CollectFails(results, i);
  }

  lemma {:induction false} CollectPrefixSucceeds(results: seq<Result<Os.FileInfo, Os.PathError>>, i: nat)
    requires i <= |results|
    requires Collect(results[..i]).Success?
    ensures forall j :: 0 <= j < i ==> results[j].Success?
  {
    if i > 0 {
      assert results[..i][0] == results[0];
      assert results[..i][1..] == results[1..][..i - 1];
      CollectPrefixSucceeds(results[1..], i - 1);
      forall j | 0 <= j < i
        ensures results[j].Success?
      {
        if j > 0 {
          assert results[j] == results[1..][j - 1];
        }
      }
    }
  }

  lemma {:induction false} CollectAttempts(results: seq<Result<Os.FileInfo, Os.PathError>>)
    requires Collect(results).Success?
    ensures Attempts(results) == |results|
  {
    if results != [] {
      CollectAttempts(results[1..]);
    }
  }

  lemma CollectPrefix(results: seq<Result<Os.FileInfo, Os.PathError>>, i: nat, infos: seq<Os.FileInfo>)
    requires i < |results| && results[i].Success?
    requires Collect(results[..i]) == Success(infos)
    ensures Collect(results[..i + 1]) == Success(infos + [results[i].value])
  {
    CollectSnoc(results[..i], results[i]);
    assert results[..i + 1] == results[..i] + [results[i]];
  }

  lemma LstatCallsSnoc(entries: seq<Os.DirEntry>, i: nat)
    requires i < |entries|
    ensures LstatCalls(entries[..i + 1]) == LstatCalls(entries[..i]) + [Os.LstatCall(Os.EntryPath(entries[i]))]
  {
  }

  function LstatCalls(entries: seq<Os.DirEntry>): seq<Os.Call>
  {
    seq(|entries|, i requires 0 <= i < |entries| => Os.LstatCall(Os.EntryPath(entries[i])))
  }

  /** What `FileLister(dirPath)` yields for a file system state, and the calls it makes. */
  function ListDir(s: Os.State, dirPath: string): (out: (Result<seq<Os.FileInfo>, Os.PathError>, seq<Os.Call>))
  {
    match Os.ReadDir(s, dirPath)
    case Failure(e) => (Failure(e), [Os.ReadDirCall(dirPath)])
    case Success(entries) =>
      var results := Lstats(s, entries);
      (Collect(results), [Os.ReadDirCall(dirPath)] + LstatCalls(entries[..Attempts(results)]))
  }

  lemma ListDirFails(s: Os.State, dirPath: string)
    requires Os.ReadDir(s, dirPath).Failure?
    ensures ListDir(s, dirPath) == (Failure(Os.ReadDir(s, dirPath).error), [Os.ReadDirCall(dirPath)])
  {
  }

  lemma ListDirReads(s: Os.State, dirPath: string, entries: seq<Os.DirEntry>)
    requires Os.ReadDir(s, dirPath) == Success(entries)
    ensures var results := Lstats(s, entries);
            ListDir(s, dirPath) == (Collect(results), [Os.ReadDirCall(dirPath)] + LstatCalls(entries[..Attempts(results)]))
  {
  }

  /** The request handler of one channel. */
  class SftpHandler {
    const mu: Mutex
    const Username: string
    const env: Globals
    const fs: Os.FileSystem

    constructor (username: string, env: Globals, fs: Os.FileSystem)
      ensures Username == username && this.env == env && this.fs == fs
      ensures fresh(mu) && !mu.locked && Guards()
    {
      mu := new Mutex(fs);
      Username := username;
      this.env := env;
      this.fs := fs;
    }

    /** The handler's mutex guards the file system the handler works on. */
    predicate Guards()
    {
      mu.fs == fs
    }

    /** The on-disk path of a client path, with the base path as it is now. */
    function Resolved(clientPath: string): string
      reads env
    {
      FilePath.SandboxPath(env.BasePath, Username, clientPath)
    }

    /** `setFilePath`: rewrites the request's path in place, once; every caller holds the mutex. */
    method SetFilePath(r: Request)
      requires mu.locked
      modifies r`Filepath
      ensures r.Filepath == Resolved(old(r.Filepath))
    {
      r.Filepath := FilePath.SandboxPath(env.BasePath, Username, r.Filepath);
    }

    /** The loop of `FileLister`: one lstat per entry, in order, stopping at the first error. */
    method SnapshotEntries(entries: seq<Os.DirEntry>) returns (res: Result<seq<Os.FileInfo>, Os.PathError>)
      modifies fs`trace
      ensures var results := Lstats(fs.state, entries);
              res == Collect(results) &&
              fs.trace == old(fs.trace) + LstatCalls(entries[..Attempts(results)])
    {
      ghost var results := Lstats(fs.state, entries);
      var fileInfos: seq<Os.FileInfo> := [];
      var i := 0;
      while i < |entries|
        invariant 0 <= i <= |entries|
        invariant Collect(results[..i]) == Success(fileInfos)
        invariant fs.trace == old(fs.trace) + LstatCalls(entries[..i])
      {
        var info := fs.EntryInfo(entries[i]);
        LstatsAt(fs.state, entries, i);
        LstatCallsSnoc(entries, i);
        if info.Failure? {
          CollectStops(results, i);
          return Failure(info.error);
        }
        CollectPrefix(results, i, fileInfos);
        fileInfos := fileInfos + [info.value];
        i := i + 1;
      }
      assert results[..i] == results;
      CollectAttempts(results);
      assert entries[..i] == entries;
      return Success(fileInfos);
    }

    /** `FileLister`: reads the directory, then snapshots its entries. */
    method ListDirectory(dirPath: string) returns (res: Result<FileLister, Error>)
      modifies fs`trace
      ensures var out := ListDir(fs.state, dirPath);
              fs.trace == old(fs.trace) + out.1 &&
              (out.0.Success? <==> res.Success?) &&
              (res.Success? ==> fresh(res.value) && res.value.files == out.0.value) &&
              (res.Failure? ==> res.error == OsError(out.0.error))
    {
      ghost var before := fs.trace;
      var dirEntries := fs.ReadDirectory(dirPath);
      if dirEntries.Failure? {
        ListDirFails(fs.state, dirPath);
        return Failure(OsError(dirEntries.error));
      }
      ListDirReads(fs.state, dirPath, dirEntries.value);
      ghost var read := fs.trace;
      var snapshot := SnapshotEntries(dirEntries.value);
      assert fs.trace == before + ([Os.ReadDirCall(dirPath)] + (fs.trace[|read|..])) by {
        assert fs.trace == read + fs.trace[|read|..];
      }
      if snapshot.Failure? {
        return Failure(OsError(snapshot.error));
      }
      var lister := new FileLister(snapshot.value);
      res := Success(lister);
    }

    /** `FileStat`: a snapshot of exactly the one entry `os.Stat` reports. */
    method FileStat(filename: string) returns (res: Result<FileLister, Error>)
      modifies fs`trace
      ensures fs.trace == old(fs.trace) + [Os.StatCall(filename)]
      ensures var st := Os.Stat(fs.state, filename);
              (st.Success? <==> res.Success?) &&
              (res.Success? ==> fresh(res.value) && res.value.files == [st.value]) &&
              (res.Failure? ==> res.error == OsError(st.error))
    {
      var stat := fs.StatPath(filename);
      if stat.Failure? {
        return Failure(OsError(stat.error));
      }
      var lister := new FileLister([stat.value]);
      res := Success(lister);
    }

    /** `Fileread`: opens the resolved path read-only. */
    method Fileread(r: Request) returns (res: Result<Os.OpenFile, Error>)
      requires Guards() && !mu.locked
      modifies mu, r`Filepath, fs
      ensures !mu.locked
      ensures r.Filepath == Resolved(old(r.Filepath))
      ensures var out := Os.Open(old(fs.state), r.Filepath, Os.ReadOnly);
              fs.state == out.1 &&
              res == (if out.0.Success? then Success(out.0.value) else Failure(OsError(out.0.error)))
      ensures fs.trace == old(fs.trace) + [Os.LockCall, Os.OpenCall(r.Filepath, Os.ReadOnly), Os.UnlockCall]
    {
      mu.Lock();
      SetFilePath(r);
      var file := fs.OpenFile(r.Filepath, Os.ReadOnly);
      if file.Failure? {
        mu.Unlock();
        return Failure(OsError(file.error));
      }
      mu.Unlock();
      return Success(file.value);
    }

    /** `Filewrite`: opens the resolved path read-write, creating it if it is missing. */
    method Filewrite(r: Request) returns (res: Result<Os.OpenFile, Error>)
      requires Guards() && !mu.locked
      modifies mu, r`Filepath, fs
      ensures !mu.locked
      ensures r.Filepath == Resolved(old(r.Filepath))
      ensures var out := Os.Open(old(fs.state), r.Filepath, Os.CreateReadWrite);
              fs.state == out.1 &&
              res == (if out.0.Success? then Success(out.0.value) else Failure(OsError(out.0.error)))
      ensures fs.trace == old(fs.trace) + [Os.LockCall, Os.OpenCall(r.Filepath, Os.CreateReadWrite), Os.UnlockCall]
    {
      mu.Lock();
      SetFilePath(r);
      var file := fs.OpenFile(r.Filepath, Os.CreateReadWrite);
      if file.Failure? {
        mu.Unlock();
        return Failure(OsError(file.error));
      }
      mu.Unlock();
      return Success(file.value);
    }

    /**
      `Filecmd`: "Remove" removes exactly the resolved path; every other command
      is refused before the path is resolved or the file system is touched.
     */
    method Filecmd(r: Request) returns (err: Option<Error>)
      requires Guards() && !mu.locked
      modifies mu, r`Filepath, fs
      ensures !mu.locked
      ensures r.Method == "Remove" ==>
                r.Filepath == Resolved(old(r.Filepath)) &&
                var out := Os.Remove(old(fs.state), r.Filepath);
                fs.state == out.1 &&
                err == (if out.0.Some? then Some(OsError(out.0.value)) else None) &&
                fs.trace == old(fs.trace) + [Os.LockCall, Os.RemoveCall(r.Filepath), Os.UnlockCall]
      ensures r.Method != "Remove" ==>
                err == Some(UnsupportedFileCmdError(r.Method)) &&
                r.Filepath == old(r.Filepath) &&
                fs.state == old(fs.state) && fs.trace == old(fs.trace) + [Os.LockCall, Os.UnlockCall]
    {
      mu.Lock();
      match FileCmdOf(r.Method)
      case Remove =>
        SetFilePath(r);
        var e := fs.RemovePath(r.Filepath);
        if e.Some? {
          mu.Unlock();
          return Some(OsError(e.value));
        }
        mu.Unlock();
        return None;
      case UnsupportedFileCmd(name) =>
        mu.Unlock();
        return Some(UnsupportedFileCmdError(name));
    }

    /**
      `Filelist`: resolves the path first, for every method; "List" yields the
      directory snapshot, "Stat" a one-entry snapshot, anything else an error.
     */
    method Filelist(r: Request) returns (res: Result<FileLister, Error>)
      requires Guards() && !mu.locked
      modifies mu, r`Filepath, fs`trace
      ensures !mu.locked
      ensures r.Filepath == Resolved(old(r.Filepath))
      ensures r.Method == "List" ==>
                var out := ListDir(fs.state, r.Filepath);
                fs.trace == old(fs.trace) + [Os.LockCall] + out.1 + [Os.UnlockCall] &&
                (res.Success? <==> out.0.Success?) &&
                (res.Success? ==> fresh(res.value) && res.value.files == out.0.value) &&
                (res.Failure? ==> res.error == OsError(out.0.error))
      ensures r.Method == "Stat" ==>
                var st := Os.Stat(fs.state, r.Filepath);
                fs.trace == old(fs.trace) + [Os.LockCall, Os.StatCall(r.Filepath), Os.UnlockCall] &&
                (res.Success? <==> st.Success?) &&
                (res.Success? ==> fresh(res.value) && res.value.files == [st.value]) &&
                (res.Failure? ==> res.error == OsError(st.error))
      ensures r.Method != "List" && r.Method != "Stat" ==>
                res == Failure(UnsupportedListCmdError(r.Method)) &&
                fs.trace == old(fs.trace) + [Os.LockCall, Os.UnlockCall]
    {
      mu.Lock();
      SetFilePath(r);
      match ListCmdOf(r.Method)
      case List =>
        var list := ListDirectory(r.Filepath);
        mu.Unlock();
        return list;
      case Stat =>
        var stats := FileStat(r.Filepath);
        mu.Unlock();
        return stats;
      case UnsupportedListCmd(name) =>
        mu.Unlock();
        return Failure(UnsupportedListCmdError(name));
    }
  }

  /** The handlers the protocol engine calls: one object in all four roles. */
  datatype Handlers = Handlers(FileGet: SftpHandler, FilePut: SftpHandler, FileCmd: SftpHandler, FileList: SftpHandler)

  /** `NewSftpHandler`: a fresh handler bound to the user logged in last. */
  method NewSftpHandler(env: Globals, fs: Os.FileSystem) returns (handlers: Handlers, err: Option<Error>)
    ensures err == None
    ensures handlers.FileGet == handlers.FilePut == handlers.FileCmd == handlers.FileList
    ensures var h := handlers.FileGet;
            fresh(h) && fresh(h.mu) && !h.mu.locked && h.Guards() &&
            h.Username == env.User && h.env == env && h.fs == fs
  {
    var handler := new SftpHandler(env.User, env, fs);
    return Handlers(handler, handler, handler, handler), None;
  }
}
