/**
  The lexical part of Go's `path/filepath` package on a Unix host, as the path
  resolver of the SFTP handler uses it: `Clean` and `Join`, and the sandbox path
  `Join(BasePath, Username, Clean(clientPath))`.

  `Clean` follows the rules of Plan 9's "Lexical File Names": replace runs of
  separators by one, drop `.` elements, drop each `..` together with the name
  before it, drop `..` right after the root, and render the empty result as `.`.
  The model splits a path into segments, reduces them with a stack and renders
  the stack again.
 */
module FilePath {

  const Separator: char := '/'

  /** The segments between separators: "a//b" gives ["a", "", "b"], "" gives [""]. */
  function Segments(s: string): (segs: seq<string>)
    ensures |segs| >= 1
    ensures forall i :: 0 <= i < |segs| ==> Separator !in segs[i]
    decreases |s|
  {
    if s == [] then [""]
    else
      var rest := Segments(s[1..]);
      if s[0] == Separator then [""] + rest
      else [[s[0]] + rest[0]] + rest[1..]
  }

  /** The segments put back together with one separator between neighbours. */
  function JoinSegments(segs: seq<string>): string
    requires |segs| >= 1
    decreases |segs|
  {
    if |segs| == 1 then segs[0] else segs[0] + [Separator] + JoinSegments(segs[1..])
  }

  lemma {:induction false} JoinSegmentsOfSegments(s: string)
    ensures JoinSegments(Segments(s)) == s
    decreases |s|
  {
    if s != [] {
      var rest := Segments(s[1..]);
      JoinSegmentsOfSegments(s[1..]);
      if s[0] == Separator {
        assert ([""] + rest)[1..] == rest;
      } else if |rest| > 1 {
        var segs := [[s[0]] + rest[0]] + rest[1..];
        assert segs[1..] == rest[1..];
        assert JoinSegments(rest) == rest[0] + [Separator] + JoinSegments(rest[1..]);
        assert s == [s[0]] + s[1..];
      } else {
        assert s == [s[0]] + s[1..];
      }
    }
  }

  lemma {:induction false} SegmentsOfName(s: string)
    requires Separator !in s
    ensures Segments(s) == [s]
    decreases |s|
  {
    if s != [] {
      SegmentsOfName(s[1..]);
      assert s == [s[0]] + s[1..];
    }
  }

  /** Splitting distributes over a separator. */
  lemma {:induction false} SegmentsOfConcat(a: string, b: string)
    ensures Segments(a + [Separator] + b) == Segments(a) + Segments(b)
    decreases |a|
  {
    if a == [] {
      assert a + [Separator] + b == [Separator] + b;
      assert ([Separator] + b)[1..] == b;
    } else {
      var whole := a + [Separator] + b;
      assert whole[0] == a[0];
      assert whole[1..] == a[1..] + [Separator] + b;
      SegmentsOfConcat(a[1..], b);
    }
  }

  lemma {:induction false} SegmentsOfJoinSegments(segs: seq<string>)
    requires |segs| >= 1
    requires forall i :: 0 <= i < |segs| ==> Separator !in segs[i]
    ensures Segments(JoinSegments(segs)) == segs
    decreases |segs|
  {
    SegmentsOfName(segs[0]);
    if |segs| > 1 {
      SegmentsOfJoinSegments(segs[1..]);
      SegmentsOfConcat(segs[0], JoinSegments(segs[1..]));
      assert segs == [segs[0]] + segs[1..];
    }
  }

  lemma {:induction false} JoinSegmentsAppend(a: seq<string>, b: seq<string>)
    requires |a| >= 1 && |b| >= 1
    ensures JoinSegments(a + b) == JoinSegments(a) + [Separator] + JoinSegments(b)
    decreases |a|
  {
    if |a| == 1 {
      assert (a + b)[1..] == b;
    } else {
      assert (a + b)[1..] == a[1..] + b;
      JoinSegmentsAppend(a[1..], b);
    }
  }

  /** A segment that names a directory entry: not empty, not `.`, not `..`. */
  predicate IsName(seg: string)
  {
    seg != "" && seg != "." && seg != ".." && Separator !in seg
  }

  /** One step of the lexical reduction of a path's segments onto a stack. */
  function Step(stack: seq<string>, seg: string, rooted: bool): seq<string>
  {
    if seg == "" || seg == "." then stack
    else if seg == ".." then
      if |stack| > 0 && stack[|stack| - 1] != ".." then stack[..|stack| - 1]
      else if rooted then stack
      else stack + [".."]
    else stack + [seg]
  }

  function Reduce(segs: seq<string>, rooted: bool, stack: seq<string>): seq<string>
    decreases |segs|
  {
    if segs == [] then stack else Reduce(segs[1..], rooted, Step(stack, segs[0], rooted))
  }

  /**
    A stack as the reduction leaves it: names, and for a relative path possibly
    `..` entries, all of them before the first name.
   */
  predicate Reduced(stack: seq<string>, rooted: bool)
  {
    (forall i :: 0 <= i < |stack| ==> IsName(stack[i]) || (!rooted && stack[i] == "..")) &&
    (forall i, j :: 0 <= i < j < |stack| && stack[j] == ".." ==> stack[i] == "..")
  }

  lemma StepKeepsReduced(stack: seq<string>, seg: string, rooted: bool)
    requires Reduced(stack, rooted) && Separator !in seg
    ensures Reduced(Step(stack, seg, rooted), rooted)
  {
    if seg == ".." && !rooted && (|stack| == 0 || stack[|stack| - 1] == "..") {
      var s := stack + [".."];
      forall i | 0 <= i < |s| ensures s[i] == ".." {
        if i < |stack| - 1 {
          assert stack[|stack| - 1] == "..";
        }
      }
    }
  }

  lemma {:induction false} ReduceKeepsReduced(segs: seq<string>, rooted: bool, stack: seq<string>)
    requires Reduced(stack, rooted)
    requires forall i :: 0 <= i < |segs| ==> Separator !in segs[i]
    ensures Reduced(Reduce(segs, rooted, stack), rooted)
    decreases |segs|
  {
    if segs != [] {
      StepKeepsReduced(stack, segs[0], rooted);
      ReduceKeepsReduced(segs[1..], rooted, Step(stack, segs[0], rooted));
    }
  }

  /** The reduction is a left fold. */
  lemma {:induction false} ReduceAppend(a: seq<string>, b: seq<string>, rooted: bool, stack: seq<string>)
    ensures Reduce(a + b, rooted, stack) == Reduce(b, rooted, Reduce(a, rooted, stack))
    decreases |a|
  {
    if a == [] {
      assert a + b == b;
    } else {
      assert (a + b)[0] == a[0];
      assert (a + b)[1..] == a[1..] + b;
      ReduceAppend(a[1..], b, rooted, Step(stack, a[0], rooted));
    }
  }

  /** Names are pushed unchanged. */
  lemma {:induction false} ReduceNames(names: seq<string>, rooted: bool, stack: seq<string>)
    requires forall i :: 0 <= i < |names| ==> IsName(names[i])
    ensures Reduce(names, rooted, stack) == stack + names
    decreases |names|
  {
    if names != [] {
      ReduceNames(names[1..], rooted, stack + [names[0]]);
      assert stack + [names[0]] + names[1..] == stack + names;
    }
  }

  /** Reducing a stack that is already reduced changes nothing. */
  lemma {:induction false} ReduceOfReduced(stack: seq<string>, tail: seq<string>, rooted: bool)
    requires Reduced(stack + tail, rooted)
    ensures Reduce(tail, rooted, stack) == stack + tail
    decreases |tail|
  {
    if tail != [] {
      var whole := stack + tail;
      assert whole[|stack|] == tail[0];
      if tail[0] == ".." && |stack| > 0 {
        assert whole[|stack| - 1] == "..";
      }
      assert Step(stack, tail[0], rooted) == stack + [tail[0]];
      assert (stack + [tail[0]]) + tail[1..] == whole;
      ReduceOfReduced(stack + [tail[0]], tail[1..], rooted);
    }
  }

  predicate IsRooted(p: string)
  {
    |p| > 0 && p[0] == Separator
  }

  /** Appending a separator and a plain name makes that name the last one `Clean` keeps. */
  lemma LastNameAppended(p: string, name: string)
    requires IsName(name)
    ensures var names := CleanSegments(p + [Separator] + name); names != [] && names[|names| - 1] == name
  {
    SegmentsOfConcat(p, name);
    SegmentsOfName(name);
    ReduceAppend(Segments(p), [name], IsRooted(p + [Separator] + name), []);
  }

  /** The segments `Clean` keeps for a path, in order. */
  function CleanSegments(p: string): seq<string>
  {
    Reduce(Segments(p), IsRooted(p), [])
  }

  lemma CleanSegmentsReduced(p: string)
    ensures Reduced(CleanSegments(p), IsRooted(p))
  {
    ReduceKeepsReduced(Segments(p), IsRooted(p), []);
  }

  /** A reduced stack written as a path. */
  function Render(rooted: bool, stack: seq<string>): string
  {
    if stack == [] then (if rooted then [Separator] else ".")
    else if rooted then [Separator] + JoinSegments(stack)
    else JoinSegments(stack)
  }

  /** Go's `filepath.Clean`: never empty, and rooted exactly when its argument is. */
  function Clean(p: string): (r: string)
    ensures r != ""
    ensures IsRooted(r) <==> IsRooted(p)
  {
    var stack := CleanSegments(p);
    CleanSegmentsReduced(p);
    if stack != [] then
      RenderParts(IsRooted(p), stack);
      Render(IsRooted(p), stack)
    else Render(IsRooted(p), stack)
  }

  /** The segments of a path after its root separator, if any. */
  function Body(p: string): seq<string>
  {
    if IsRooted(p) then Segments(p[1..]) else Segments(p)
  }

  /**
    A clean path: `.`, `/`, or segments with no empty segment (so no doubled and
    no trailing separator), no `.`, and `..` only at the front of a relative path.
   */
  predicate IsClean(p: string)
  {
    p == "." || p == [Separator] || Reduced(Body(p), IsRooted(p))
  }

  lemma {:induction false} RenderParts(rooted: bool, stack: seq<string>)
    requires Reduced(stack, rooted) && stack != []
    ensures IsRooted(Render(rooted, stack)) == rooted
    ensures Body(Render(rooted, stack)) == stack
    ensures Render(rooted, stack) != "." && Render(rooted, stack) != [Separator]
    ensures |Render(rooted, stack)| > 0
  {
    var j := JoinSegments(stack);
    SegmentsOfJoinSegments(stack);
    assert stack[0] != "";
    if |stack| > 1 {
      assert j == stack[0] + [Separator] + JoinSegments(stack[1..]);
    }
    assert j[0] == stack[0][0] && j[0] != Separator;
    assert j != ".";
    if rooted {
      assert ([Separator] + j)[1..] == j;
    }
  }

  /** `Clean` returns a clean path... */
  lemma CleanIsClean(p: string)
    ensures IsClean(Clean(p))
  {
    CleanSegmentsReduced(p);
    if CleanSegments(p) != [] {
      RenderParts(IsRooted(p), CleanSegments(p));
    }
  }

  /** ...and leaves a clean path as it is. */
  lemma CleanOfClean(p: string)
    requires IsClean(p)
    ensures Clean(p) == p
  {
    if p == "." {
      SegmentsOfName(p);
      assert Reduce(["."], false, []) == Reduce([], false, []);
    } else if p == [Separator] {
      SegmentsOfConcat("", "");
      assert p == "" + [Separator] + "";
      assert Reduce(["", ""], true, []) == Reduce([""], true, []) == [];
    } else if IsRooted(p) {
      CleanOfCleanRooted(p);
    } else {
      CleanOfCleanRelative(p);
    }
  }

  lemma CleanOfCleanRooted(p: string)
    requires IsRooted(p) && Reduced(Segments(p[1..]), true)
    ensures Clean(p) == p
  {
    RootedCleanSegments(p);
    JoinSegmentsOfSegments(p[1..]);
    assert p == [Separator] + p[1..];
  }

  lemma RootedCleanSegments(p: string)
    requires IsRooted(p) && Reduced(Segments(p[1..]), true)
    ensures CleanSegments(p) == Segments(p[1..])
  {
    var body := Segments(p[1..]);
    assert Segments(p) == [""] + body;
    assert ([""] + body)[1..] == body;
    assert Reduce([""] + body, true, []) == Reduce(body, true, []);
    assert [] + body == body;
    ReduceOfReduced([], body, true);
  }

  lemma CleanOfCleanRelative(p: string)
    requires !IsRooted(p) && Reduced(Segments(p), false)
    ensures Clean(p) == p
  {
    assert [] + Segments(p) == Segments(p);
    ReduceOfReduced([], Segments(p), false);
    JoinSegmentsOfSegments(p);
  }

  lemma CleanIdempotent(p: string)
    ensures Clean(Clean(p)) == Clean(p)
  {
    CleanIsClean(p);
    CleanOfClean(Clean(p));
  }

  /** A rooted path cleans to the root followed by plain names only: no `..` survives. */
  lemma CleanRooted(p: string)
    requires IsRooted(p)
    ensures IsRooted(Clean(p))
    ensures forall i :: 0 <= i < |CleanSegments(p)| ==> IsName(CleanSegments(p)[i])
  {
    CleanSegmentsReduced(p);
  }

  /**
    Go's `filepath.Join`: the elements from the first non-empty one on, joined
    with separators and cleaned; "" when every element is empty.
   */
  function Join(elems: seq<string>): (r: string)
    ensures r == "" <==> forall i :: 0 <= i < |elems| ==> elems[i] == ""
    ensures r != "" ==> IsClean(r)
    decreases |elems|
  {
    if elems == [] then ""
    else if elems[0] == "" then
      assert forall i :: 1 <= i < |elems| ==> elems[i] == elems[1..][i - 1];
      Join(elems[1..])
    else
      CleanIsClean(JoinSegments(elems));
      Clean(JoinSegments(elems))
  }

  /**
    The on-disk path of a client path: `Join(BasePath, Username, Clean(clientPath))`.
    It is never empty, and always clean.
   */
  function SandboxPath(basePath: string, username: string, clientPath: string): (r: string)
    ensures r != "" && IsClean(r)
  {
    var elems := [basePath, username, Clean(clientPath)];
    assert elems[2] != "";
    Join(elems)
  }

  /**
    With no base path and no username, as before any password login, the on-disk
    path of a client path is that path itself, cleaned: no sandbox applies.
   */
  lemma UnboundSandboxPath(clientPath: string)
    ensures SandboxPath("", "", clientPath) == Clean(clientPath)
  {
    var c := Clean(clientPath);
    assert ["", "", c][1..] == ["", c];
    assert ["", c][1..] == [c];
    assert JoinSegments([c]) == c;
    assert Join(["", "", c]) == Join(["", c]) == Join([c]) == Clean(c);
    CleanIdempotent(clientPath);
  }

  /** The sandbox root of a user: `Join(BasePath, Username)`. */
  function SandboxRoot(basePath: string, username: string): string
  {
    Join([basePath, username])
  }

  /** `root` followed by the plain names `names`, written as a clean path. */
  function Descend(root: string, names: seq<string>): string
  {
    if names == [] then root
    else if root == [Separator] then [Separator] + JoinSegments(names)
    else if root == "." then JoinSegments(names)
    else root + [Separator] + JoinSegments(names)
  }

  lemma RenderAppend(rooted: bool, stack: seq<string>, names: seq<string>)
    requires Reduced(stack, rooted)
    ensures Render(rooted, stack + names) == Descend(Render(rooted, stack), names)
  {
    if names == [] {
      assert stack + names == stack;
    } else if stack == [] {
      assert stack + names == names;
    } else {
      RenderAppendBelow(rooted, stack, names);
    }
  }

  lemma RenderAppendBelow(rooted: bool, stack: seq<string>, names: seq<string>)
    requires Reduced(stack, rooted) && stack != [] && names != []
    ensures Render(rooted, stack + names) == Descend(Render(rooted, stack), names)
  {
    var root := Render(rooted, stack);
    RenderParts(rooted, stack);
    assert Descend(root, names) == root + [Separator] + JoinSegments(names);
    var j, k := JoinSegments(stack), JoinSegments(names);
    JoinSegmentsAppend(stack, names);
    assert stack + names != [];
    if rooted {
      assert root == [Separator] + j;
      assert Render(rooted, stack + names) == [Separator] + (j + [Separator] + k);
      assert [Separator] + (j + [Separator] + k) == ([Separator] + j) + [Separator] + k;
    } else {
      assert root == j;
    }
  }

  /** Cleaning `x/<a cleaned rooted path>` descends from `Clean(x)` by that path's names. */
  lemma CleanBelow(x: string, p: string)
    requires x != "" && IsRooted(p)
    ensures Clean(x + [Separator] + Clean(p)) == Descend(Clean(x), CleanSegments(p))
  {
    var names := CleanSegments(p);
    CleanRooted(p);
    var c := Clean(p);
    var whole := x + [Separator] + c;
    assert IsRooted(whole) == IsRooted(x) by { assert whole[0] == x[0]; }
    SegmentsOfConcat(x, c);
    var tail := Segments(c[1..]);
    assert Segments(c) == [""] + tail;
    if names == [] {
      assert c[1..] == "";
      assert tail == [""];
    } else {
      assert c[1..] == JoinSegments(names);
      SegmentsOfJoinSegments(names);
    }
    var rx := IsRooted(x);
    var sx := CleanSegments(x);
    ReduceAppend(Segments(x), Segments(c), rx, []);
    assert ([""] + tail)[1..] == tail;
    assert Reduce(Segments(c), rx, sx) == Reduce(tail, rx, sx);
    if names == [] {
      assert Reduce([""], rx, sx) == Reduce([], rx, sx);
      assert sx + names == sx;
    } else {
      ReduceNames(names, rx, sx);
    }
    assert CleanSegments(whole) == CleanSegments(x) + names;
    CleanSegmentsReduced(x);
    RenderAppend(rx, CleanSegments(x), names);
  }

  /**
    Confinement: for a rooted client path the on-disk path is the user's sandbox
    root followed by plain names, never by `..`.
   */
  lemma RootedPathConfined(basePath: string, username: string, clientPath: string)
    requires IsRooted(clientPath)
    requires basePath != "" || username != ""
    ensures SandboxPath(basePath, username, clientPath)
         == Descend(SandboxRoot(basePath, username), CleanSegments(clientPath))
    ensures forall i :: 0 <= i < |CleanSegments(clientPath)| ==> IsName(CleanSegments(clientPath)[i])
  {
    CleanRooted(clientPath);
    var c := Clean(clientPath);
    if basePath != "" {
      var x := basePath + [Separator] + username;
      assert [basePath, username][1..] == [username];
      assert JoinSegments([basePath, username]) == x;
      assert [basePath, username, c][1..] == [username, c];
      assert [username, c][1..] == [c];
      assert JoinSegments([username, c]) == username + [Separator] + c;
      assert JoinSegments([basePath, username, c]) == x + [Separator] + c;
      CleanBelow(x, clientPath);
    } else {
      assert [basePath, username][1..] == [username];
      assert [basePath, username, c][1..] == [username, c];
      assert JoinSegments([username]) == username;
      assert Join([username]) == Clean(username);
      assert SandboxRoot(basePath, username) == Clean(username);
      assert SandboxPath(basePath, username, clientPath) == Join([username, c]);
      assert [username, c][1..] == [c];
      assert JoinSegments([username, c]) == username + [Separator] + c;
      CleanBelow(username, clientPath);
    }
  }

  /** The same fact read as strings: the sandbox root is a prefix ending at a separator. */
  lemma RootedPathUnderRoot(basePath: string, username: string, clientPath: string)
    requires IsRooted(clientPath)
    requires basePath != "" || username != ""
    requires SandboxRoot(basePath, username) != "."
    ensures var root := SandboxRoot(basePath, username);
            var r := SandboxPath(basePath, username, clientPath);
            root <= r &&
            (|r| > |root| && root != [Separator] ==> r[|root|] == Separator)
  {
    RootedPathConfined(basePath, username, clientPath);
  }

  lemma JoinOfTwo(a: string, b: string)
    requires a != ""
    ensures Join([a, b]) == Clean(a + [Separator] + b)
  {
    assert [a, b][1..] == [b];
    assert JoinSegments([a, b]) == a + [Separator] + b;
  }

  lemma JoinOfThree(a: string, b: string, c: string)
    requires a != ""
    ensures Join([a, b, c]) == Clean(a + [Separator] + b + [Separator] + c)
  {
    assert [a, b, c][1..] == [b, c];
    assert [b, c][1..] == [c];
    assert JoinSegments([b, c]) == b + [Separator] + c;
    assert a + [Separator] + (b + [Separator] + c) == a + [Separator] + b + [Separator] + c;
  }

  /** `/b/u` for two names is clean and has the segments [b, u]. */
  lemma CleanOfTwoNames(b: string, u: string)
    requires IsName(b) && IsName(u)
    ensures Segments([Separator] + b + [Separator] + u) == ["", b, u]
    ensures CleanSegments([Separator] + b + [Separator] + u) == [b, u]
    ensures Clean([Separator] + b + [Separator] + u) == [Separator] + b + [Separator] + u
  {
    var root := [Separator] + b + [Separator] + u;
    SegmentsOfTwoNames(b, u);
    assert IsRooted(root);
    assert Reduce(["", b, u], true, []) == Reduce([b, u], true, []);
    ReduceNames([b, u], true, []);
    RenderTwo(b, u);
  }

  lemma SegmentsOfTwoNames(b: string, u: string)
    requires IsName(b) && IsName(u)
    ensures Segments([Separator] + b + [Separator] + u) == ["", b, u]
  {
    assert [Separator] + b + [Separator] + u == "" + [Separator] + (b + [Separator] + u);
    SegmentsOfConcat("", b + [Separator] + u);
    SegmentsOfConcat(b, u);
    SegmentsOfName(b);
    SegmentsOfName(u);
  }

  lemma RenderTwo(a: string, c: string)
    ensures Render(true, [a, c]) == [Separator] + a + [Separator] + c
  {
    assert [a, c][1..] == [c];
    assert JoinSegments([a, c]) == a + [Separator] + c;
  }

  /** `../n` for a name is clean and has the segments [.., n]. */
  lemma CleanOfParentName(n: string)
    requires IsName(n)
    ensures Segments(".." + [Separator] + n) == ["..", n]
    ensures Clean(".." + [Separator] + n) == ".." + [Separator] + n
  {
    SegmentsOfConcat("..", n);
    SegmentsOfName("..");
    SegmentsOfName(n);
    CleanOfCleanRelative(".." + [Separator] + n);
  }

  lemma CleanOfSibling(b: string, u: string, n: string)
    requires IsName(b) && IsName(u) && IsName(n)
    ensures var whole := [Separator] + b + [Separator] + u + [Separator] + (".." + [Separator] + n);
            Clean(whole) == [Separator] + b + [Separator] + n
  {
    var whole := [Separator] + b + [Separator] + u + [Separator] + (".." + [Separator] + n);
    SiblingSegments(b, u, n);
    assert IsRooted(whole);
    RenderTwo(b, n);
  }

  lemma SiblingSegments(b: string, u: string, n: string)
    requires IsName(b) && IsName(u) && IsName(n)
    ensures CleanSegments([Separator] + b + [Separator] + u + [Separator] + (".." + [Separator] + n)) == [b, n]
  {
    var root := [Separator] + b + [Separator] + u;
    var up := ".." + [Separator] + n;
    SegmentsOfTwoNames(b, u);
    CleanOfParentName(n);
    SegmentsOfConcat(root, up);
    assert Segments(root + [Separator] + up) == ["", b, u] + ["..", n];
    assert IsRooted(root + [Separator] + up);
    ReduceAppend(["", b, u], ["..", n], true, []);
    assert Reduce(["", b, u], true, []) == Reduce([b, u], true, []);
    ReduceNames([b, u], true, []);
    assert [] + [b, u] == [b, u];
    assert Reduce(["..", n], true, [b, u]) == Reduce([n], true, [b]);
    assert Reduce([n], true, [b]) == [b, n];
    assert CleanSegments(root + [Separator] + up) == Reduce(["", b, u] + ["..", n], true, []);
  }

  /**
    A relative client path keeps its leading `..` through `Clean`, and `Join`
    then climbs out of the sandbox: with base `/b` and user `u`, the client path
    `../n` resolves to `/b/n`, a sibling of the user's root `/b/u`.
   */
  lemma RelativePathEscapes(b: string, u: string, n: string)
    requires IsName(b) && IsName(u) && IsName(n)
    ensures SandboxRoot([Separator] + b, u) == [Separator] + b + [Separator] + u
    ensures SandboxPath([Separator] + b, u, ".." + [Separator] + n) == [Separator] + b + [Separator] + n
    ensures u != n ==> !(CleanSegments(SandboxRoot([Separator] + b, u))
                         <= CleanSegments(SandboxPath([Separator] + b, u, ".." + [Separator] + n)))
  {
    var base := [Separator] + b;
    var up := ".." + [Separator] + n;
    var root := base + [Separator] + u;
    var whole := root + [Separator] + up;
    CleanOfTwoNames(b, u);
    CleanOfTwoNames(b, n);
    CleanOfParentName(n);
    CleanOfSibling(b, u, n);
    JoinOfTwo(base, u);
    JoinOfThree(base, u, up);
    if u != n {
      assert [b, u][1] != [b, n][1];
    }
  }
}
