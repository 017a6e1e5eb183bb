/**
  The host file system as the handler reaches it through `os.OpenFile`,
  `os.Remove`, `os.ReadDir`, `DirEntry.Info` (an lstat) and `os.Stat`.

  The state maps cleaned paths to regular files and directories; a directory
  holds its entries' names in the order they were created, and a read of it
  yields them sorted by name. A set of paths is closed to the server process
  and fails with EACCES. Every call is appended to a trace, and so is every
  acquisition and release of the handler's mutex, so that callers can say
  exactly which paths they touched and which calls were made under the lock.
 */
module Os {
  import opened Wrappers
  import FilePath

  datatype Node = Regular(size: nat) | Directory(children: seq<string>)

  /** What `os.FileInfo` reports. */
  datatype FileInfo = FileInfo(name: string, size: nat, isDir: bool)

  datatype Errno = ENOENT | EACCES | ENOTDIR | EISDIR | ENOTEMPTY

  /** Go's `*fs.PathError`: the operation, the path it was given and the cause. */
  datatype PathError = PathError(op: string, path: string, errno: Errno)

  /** The two modes the handler opens files with: `os.O_RDONLY` and `os.O_CREATE|os.O_RDWR`. */
  datatype OpenFlag = ReadOnly | CreateReadWrite

  /** An open `*os.File`: the name it was opened by and its mode. */
  datatype OpenFile = OpenFile(name: string, flag: OpenFlag)

  /** An entry `os.ReadDir` returned: the directory path it was read from and its name. */
  datatype DirEntry = DirEntry(parent: string, name: string)

  /** One call into the operating system, with the path exactly as it was passed. */
  datatype Call =
    | OpenCall(path: string, flag: OpenFlag)
    | RemoveCall(path: string)
    | ReadDirCall(path: string)
    | LstatCall(path: string)
    | StatCall(path: string)
    | LockCall
    | UnlockCall

  datatype State = State(nodes: map<string, Node>, denied: set<string>)

  /** The node a path names: the kernel resolves `.`, `..` and doubled separators. */
  function Key(path: string): string
  {
    FilePath.Clean(path)
  }

  function Parent(path: string): string
  {
    FilePath.Clean(path + [FilePath.Separator] + "..")
  }

  /** The last element of the cleaned path, as `FileInfo.Name` reports it. */
  function BaseName(path: string): string
  {
    var names := FilePath.CleanSegments(path);
    if names == [] then FilePath.Clean(path) else names[|names| - 1]
  }

  function Info(path: string, node: Node): FileInfo
  {
    match node
    case Regular(size) => FileInfo(BaseName(path), size, false)
    case Directory(_) => FileInfo(BaseName(path), 0, true)
  }

  function Without(names: seq<string>, name: string): (r: seq<string>)
    ensures name !in r
    ensures forall n :: n in r <==> n in names && n != name
  {
    if names == [] then []
    else if names[0] == name then Without(names[1..], name)
    else [names[0]] + Without(names[1..], name)
  }

  /** `os.OpenFile(path, flag, 0777)`. */
  function Open(s: State, path: string, flag: OpenFlag): (out: (Result<OpenFile, PathError>, State))
    ensures out.0.Success? ==> out.0.value == OpenFile(path, flag)
    ensures flag == ReadOnly ==> out.1 == s
    ensures out.0.Failure? ==> out.1 == s && out.0.error.op == "open" && out.0.error.path == path
    ensures Key(path) in s.denied ==> out.0.Failure?
    ensures Key(path) !in s.denied && Key(path) in s.nodes ==>
              (out.0.Success? <==> !(s.nodes[Key(path)].Directory? && flag == CreateReadWrite))
    ensures Key(path) !in s.denied && Key(path) !in s.nodes ==>
              (out.0.Success? <==> flag != ReadOnly && Parent(Key(path)) in s.nodes && s.nodes[Parent(Key(path))].Directory?)
    ensures Key(path) !in s.denied && Key(path) !in s.nodes && flag != ReadOnly &&
            Parent(Key(path)) in s.nodes && s.nodes[Parent(Key(path))].Regular? ==>
              out.0 == Failure(PathError("open", path, ENOTDIR))
    ensures out.1.denied == s.denied
    ensures out.0.Success? ==> Key(path) in out.1.nodes
    ensures out.0.Success? && Key(path) in s.nodes ==> out.1 == s
    ensures out.1.nodes.Keys <= s.nodes.Keys + {Key(path)}
    ensures forall q :: q in s.nodes && q != Parent(Key(path)) ==> q in out.1.nodes && out.1.nodes[q] == s.nodes[q]
    ensures out.0.Success? && Key(path) !in s.nodes ==>
              out.1.nodes[Key(path)] == Regular(0) &&
              Parent(Key(path)) in s.nodes && s.nodes[Parent(Key(path))].Directory? && Parent(Key(path)) in out.1.nodes &&
              out.1.nodes[Parent(Key(path))] == Directory(s.nodes[Parent(Key(path))].children + [BaseName(Key(path))])
  {
    var k := Key(path);
    if k in s.denied then (Failure(PathError("open", path, EACCES)), s)
    else if k in s.nodes then
      if s.nodes[k].Directory? && flag == CreateReadWrite then (Failure(PathError("open", path, EISDIR)), s)
      else (Success(OpenFile(path, flag)), s)
    else if flag == ReadOnly then (Failure(PathError("open", path, ENOENT)), s)
    else
      var dir := Parent(k);
      if dir in s.nodes && s.nodes[dir].Directory? then
        var listed := Directory(s.nodes[dir].children + [BaseName(k)]);
        (Success(OpenFile(path, flag)), State(s.nodes[k := Regular(0)][dir := listed], s.denied))
      else if dir in s.nodes then (Failure(PathError("open", path, ENOTDIR)), s)
      else (Failure(PathError("open", path, ENOENT)), s)
  }

  /** `os.Remove(path)`: a file, or a directory that is empty. */
  function Remove(s: State, path: string): (out: (Option<PathError>, State))
    ensures out.0.Some? ==> out.1 == s && out.0.value.op == "remove" && out.0.value.path == path
    ensures out.0.None? <==>
              Key(path) !in s.denied && Key(path) in s.nodes && !(s.nodes[Key(path)].Directory? && s.nodes[Key(path)].children != [])
    ensures out.0.None? ==> Key(path) in s.nodes && Key(path) !in out.1.nodes
    ensures out.1.denied == s.denied
    ensures out.0.None? ==> out.1.nodes.Keys == s.nodes.Keys - {Key(path)}
    ensures forall q :: q in s.nodes && q != Key(path) && q != Parent(Key(path)) ==> q in out.1.nodes && out.1.nodes[q] == s.nodes[q]
    ensures out.0.None? && Parent(Key(path)) != Key(path) && Parent(Key(path)) in s.nodes && s.nodes[Parent(Key(path))].Directory? ==>
              out.1.nodes[Parent(Key(path))] == Directory(Without(s.nodes[Parent(Key(path))].children, BaseName(Key(path))))
  {
    var k := Key(path);
    if k in s.denied then (Some(PathError("remove", path, EACCES)), s)
    else if k !in s.nodes then (Some(PathError("remove", path, ENOENT)), s)
    else if s.nodes[k].Directory? && s.nodes[k].children != [] then (Some(PathError("remove", path, ENOTEMPTY)), s)
    else
      var rest := s.nodes - {k};
      var dir := Parent(k);
      if dir in rest && rest[dir].Directory? then
        (None, State(rest[dir := Directory(Without(rest[dir].children, BaseName(k)))], s.denied))
      else (None, State(rest, s.denied))
  }

  /** Go's string order: byte by byte, a proper prefix first. */
  predicate NameOrder(a: string, b: string)
    decreases |a|
  {
    a == [] || (b != [] && (a[0] < b[0] || (a[0] == b[0] && NameOrder(a[1..], b[1..]))))
  }

  lemma {:induction false} NameOrderTotal(a: string, b: string)
    ensures NameOrder(a, b) || NameOrder(b, a)
    decreases |a|
  {
    if a != [] && b != [] && a[0] == b[0] {
      NameOrderTotal(a[1..], b[1..]);
    }
  }

  lemma {:induction false} NameOrderAntisymmetric(a: string, b: string)
    requires NameOrder(a, b) && NameOrder(b, a)
    ensures a == b
    decreases |a|
  {
    if a != [] {
      NameOrderAntisymmetric(a[1..], b[1..]);
      assert a == [a[0]] + a[1..] && b == [b[0]] + b[1..];
    }
  }

  lemma {:induction false} NameOrderTransitive(a: string, b: string, c: string)
    requires NameOrder(a, b) && NameOrder(b, c)
    ensures NameOrder(a, c)
    decreases |a|
  {
    if a != [] && a[0] == b[0] && b[0] == c[0] {
      NameOrderTransitive(a[1..], b[1..], c[1..]);
    }
  }

  predicate SortedByName(names: seq<string>)
  {
    forall i :: 0 < i < |names| ==> NameOrder(names[i - 1], names[i])
  }

  /** A name that precedes the head of a sorted list can go in front of it. */
  lemma ConsSorted(name: string, sorted: seq<string>)
    requires SortedByName(sorted)
    requires sorted == [] || NameOrder(name, sorted[0])
    ensures SortedByName([name] + sorted)
  {
  }

  /** `name` put into a sorted list in front of the first name it does not follow. */
  function InsertName(name: string, sorted: seq<string>): (r: seq<string>)
    requires SortedByName(sorted)
    ensures SortedByName(r)
    ensures multiset(r) == multiset(sorted) + multiset{name}
    ensures r[0] == name || (sorted != [] && r[0] == sorted[0])
  {
    if sorted == [] || NameOrder(name, sorted[0]) then
      ConsSorted(name, sorted);
      [name] + sorted
    else
      NameOrderTotal(name, sorted[0]);
      var rest := InsertName(name, sorted[1..]);
      assert NameOrder(sorted[0], rest[0]);
      ConsSorted(sorted[0], rest);
      assert sorted == [sorted[0]] + sorted[1..];
      assert multiset([sorted[0]] + rest) == multiset{sorted[0]} + multiset(rest);
      [sorted[0]] + rest
  }

  /** The names of a directory in the order `os.ReadDir` returns them: sorted by name. */
  function SortByName(names: seq<string>): (r: seq<string>)
    ensures SortedByName(r)
    ensures multiset(r) == multiset(names)
  {
    if names == [] then []
    else
      assert names == [names[0]] + names[1..];
      InsertName(names[0], SortByName(names[1..]))
  }

  /** In a sorted list every name precedes all the names after it. */
  lemma {:induction false} SortedPairwise(names: seq<string>, i: nat, j: nat)
    requires SortedByName(names) && i <= j < |names|
    ensures NameOrder(names[i], names[j])
    decreases j - i
  {
    if i == j {
      NameOrderReflexive(names[i]);
    } else {
      SortedPairwise(names, i + 1, j);
      NameOrderTransitive(names[i], names[i + 1], names[j]);
    }
  }

  lemma {:induction false} NameOrderReflexive(a: string)
    ensures NameOrder(a, a)
    decreases |a|
  {
    if a != [] {
      NameOrderReflexive(a[1..]);
    }
  }

  /** Two sorted orders of the same names start with the same name. */
  lemma SortedHeads(x: seq<string>, y: seq<string>)
    requires SortedByName(x) && SortedByName(y) && multiset(x) == multiset(y) && x != []
    ensures y != [] && x[0] == y[0]
  {
    assert x[0] in multiset(y);
    var j :| 0 <= j < |y| && y[j] == x[0];
    assert y[0] in multiset(x);
    var i :| 0 <= i < |x| && x[i] == y[0];
    SortedPairwise(x, 0, i);
    SortedPairwise(y, 0, j);
    NameOrderAntisymmetric(x[0], y[0]);
  }

  lemma TailMultiset(x: seq<string>)
    requires x != []
    ensures multiset(x[1..]) == multiset(x) - multiset{x[0]}
  {
    assert x == [x[0]] + x[1..];
  }

  /** There is one sorted order of a collection of names. */
  lemma {:induction false} SortedUnique(x: seq<string>, y: seq<string>)
    requires SortedByName(x) && SortedByName(y) && multiset(x) == multiset(y)
    ensures x == y
    decreases |x|
  {
    if x == [] {
      assert |y| == |multiset(y)| == 0;
    } else {
      SortedHeads(x, y);
      TailMultiset(x);
      TailMultiset(y);
      SortedUnique(x[1..], y[1..]);
      assert x == [x[0]] + x[1..] && y == [y[0]] + y[1..];
    }
  }

  function Entries(dir: string, names: seq<string>): (r: seq<DirEntry>)
    ensures |r| == |names|
    ensures forall i :: 0 <= i < |r| ==> r[i] == DirEntry(dir, names[i])
  {
    if names == [] then [] else [DirEntry(dir, names[0])] + Entries(dir, names[1..])
  }

  /** The names of a list of entries. */
  function Names(entries: seq<DirEntry>): (r: seq<string>)
    ensures |r| == |entries|
  {
    seq(|entries|, i requires 0 <= i < |entries| => entries[i].name)
  }

  /**
    `os.ReadDir(path)`: the entries of a directory, sorted by name. It succeeds
    exactly on a directory the process may read.
   */
  function ReadDir(s: State, path: string): (r: Result<seq<DirEntry>, PathError>)
    ensures r.Success? <==> Key(path) !in s.denied && Key(path) in s.nodes && s.nodes[Key(path)].Directory?
    ensures r.Failure? ==> r.error.path == path
  {
    var k := Key(path);
    if k in s.denied then Failure(PathError("open", path, EACCES))
    else if k !in s.nodes then Failure(PathError("open", path, ENOENT))
    else match s.nodes[k]
      case Regular(_) => Failure(PathError("readdirent", path, ENOTDIR))
      case Directory(children) => Success(Entries(path, SortByName(children)))
  }

  /**
    A directory read lists the directory's children sorted by name, each child
    as often as the directory holds it, whatever order they were created in.
   */
  lemma ReadDirSortsChildren(s: State, path: string)
    requires ReadDir(s, path).Success?
    ensures var entries := ReadDir(s, path).value;
            SortedByName(Names(entries)) &&
            multiset(Names(entries)) == multiset(s.nodes[Key(path)].children) &&
            forall i :: 0 <= i < |entries| ==> entries[i].parent == path
  {
    var sorted := SortByName(s.nodes[Key(path)].children);
    assert Names(Entries(path, sorted)) == sorted;
  }

  /**
    So two directories that hold the same children list them alike, whatever
    order the children were created in.
   */
  lemma ListingIgnoresCreationOrder(s: State, t: State, path: string)
    requires ReadDir(s, path).Success? && ReadDir(t, path).Success?
    requires multiset(s.nodes[Key(path)].children) == multiset(t.nodes[Key(path)].children)
    ensures ReadDir(s, path) == ReadDir(t, path)
  {
    var x := s.nodes[Key(path)].children;
    var y := t.nodes[Key(path)].children;
    SortedUnique(SortByName(x), SortByName(y));
  }

  function EntryPath(e: DirEntry): string
  {
    e.parent + [FilePath.Separator] + e.name
  }

  /** `DirEntry.Info()`: an lstat of the entry, which fails if it is gone or closed to the process. */
  function Lstat(s: State, e: DirEntry): (r: Result<FileInfo, PathError>)
    ensures r.Success? <==> Key(EntryPath(e)) !in s.denied && Key(EntryPath(e)) in s.nodes
    ensures r.Success? ==> r.value.isDir == s.nodes[Key(EntryPath(e))].Directory?
    ensures r.Success? ==> r.value.name == BaseName(EntryPath(e))
    ensures r.Success? && FilePath.IsName(e.name) ==> r.value.name == e.name
    ensures r.Failure? ==> r.error.op == "lstat" && r.error.path == EntryPath(e)
  {
    var p := EntryPath(e);
    var k := Key(p);
    if k in s.denied then Failure(PathError("lstat", p, EACCES))
    else if k !in s.nodes then Failure(PathError("lstat", p, ENOENT))
    else if FilePath.IsName(e.name) then
      FilePath.LastNameAppended(e.parent, e.name);
      Success(Info(p, s.nodes[k]))
    else Success(Info(p, s.nodes[k]))
  }

  /** `os.Stat(path)`: succeeds exactly on an existing path the process may reach. */
  function Stat(s: State, path: string): (r: Result<FileInfo, PathError>)
    ensures r.Success? <==> Key(path) !in s.denied && Key(path) in s.nodes
    ensures r.Success? ==> r.value.isDir == s.nodes[Key(path)].Directory? && r.value.name == BaseName(path)
    ensures r.Failure? ==> r.error.op == "stat" && r.error.path == path
  {
    var k := Key(path);
    if k in s.denied then Failure(PathError("stat", path, EACCES))
    else if k !in s.nodes then Failure(PathError("stat", path, ENOENT))
    else Success(Info(path, s.nodes[k]))
  }

  /** A file that a create-mode open has returned can be stat'ed afterwards, as a regular file. */
  lemma CreatedFileIsVisible(s: State, path: string)
    requires Open(s, path, CreateReadWrite).0.Success?
    ensures var after := Open(s, path, CreateReadWrite).1;
            Stat(after, path).Success? && !Stat(after, path).value.isDir
  {
    var k := Key(path);
    if k !in s.nodes {
      assert Parent(k) in s.nodes;
      assert Parent(k) != k;
    }
  }

  /** A path that was removed no longer stats. */
  lemma RemovedPathIsGone(s: State, path: string)
    requires Remove(s, path).0.None?
    ensures Stat(Remove(s, path).1, path) == Failure(PathError("stat", path, ENOENT))
  {
  }

  /** The host's file system, with the record of every call made to it. */
  class FileSystem {
    var state: State
    var trace: seq<Call>

    constructor (initial: State)
      ensures state == initial && trace == []
    {
      state := initial;
      trace := [];
    }

    method OpenFile(path: string, flag: OpenFlag) returns (r: Result<OpenFile, PathError>)
      modifies this
      ensures (r, state) == Open(old(state), path, flag)
      ensures trace == old(trace) + [OpenCall(path, flag)]
    {
      var out := Open(state, path, flag);
      r, state := out.0, out.1;
      trace := trace + [OpenCall(path, flag)];
    }

    method RemovePath(path: string) returns (err: Option<PathError>)
      modifies this
      ensures (err, state) == Remove(old(state), path)
      ensures trace == old(trace) + [RemoveCall(path)]
    {
      var out := Remove(state, path);
      err, state := out.0, out.1;
      trace := trace + [RemoveCall(path)];
    }

    method ReadDirectory(path: string) returns (r: Result<seq<DirEntry>, PathError>)
      modifies this`trace
      ensures r == ReadDir(state, path)
      ensures trace == old(trace) + [ReadDirCall(path)]
    {
      r := ReadDir(state, path);
      trace := trace + [ReadDirCall(path)];
    }

    method EntryInfo(e: DirEntry) returns (r: Result<FileInfo, PathError>)
      modifies this`trace
      ensures r == Lstat(state, e)
      ensures trace == old(trace) + [LstatCall(EntryPath(e))]
    {
      r := Lstat(state, e);
      trace := trace + [LstatCall(EntryPath(e))];
    }

    method StatPath(path: string) returns (r: Result<FileInfo, PathError>)
      modifies this`trace
      ensures r == Stat(state, path)
      ensures trace == old(trace) + [StatCall(path)]
    {
      r := Stat(state, path);
      trace := trace + [StatCall(path)];
    }
  }
}
