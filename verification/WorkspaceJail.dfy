// The containment boundary of the sandbox's file and shell managers.
module WorkspaceJail {
  import opened Prelude
  import opened Text

  // ---------------------------------------------------------------------------
  // POSIX paths

  predicate IsAbsolute(path: string) {
    path != "" && path[0] == '/'
  }

  // What resolve and realpath give.
  type AbsolutePath = p: string | IsAbsolute(p) witness "/"

  function Parts(path: string): (parts: seq<string>)
    ensures |parts| > 0 && forall i :: 0 <= i < |parts| ==> '/' !in parts[i]
  {
    Split(path, '/')
  }

  function Join(parts: seq<string>): string {
    if |parts| == 0 then ""
    else if |parts| == 1 then parts[0]
    else parts[0] + "/" + Join(parts[1..])
  }

  /** A name a normalised path can contain. */
  predicate IsSegment(s: string) {
    s != "" && s != "." && s != ".." && '/' !in s
  }

  predicate Normal(segments: seq<string>) {
    forall i :: 0 <= i < |segments| ==> IsSegment(segments[i])
  }

  /** Walk the parts from a directory: `.` stays, `..` leaves it, at the root for nothing. */
  function Walk(at: seq<string>, parts: seq<string>): (end: seq<string>)
    requires Normal(at) && forall i :: 0 <= i < |parts| ==> '/' !in parts[i]
    ensures Normal(end)
    decreases |parts|
  {
    if parts == [] then at
    else if parts[0] == "" || parts[0] == "." then Walk(at, parts[1..])
    else if parts[0] == ".." then Walk(if at == [] then [] else at[..|at| - 1], parts[1..])
    else Walk(at + [parts[0]], parts[1..])
  }

  /** The segments an absolute path names. */
  function Segments(path: AbsolutePath): (segments: seq<string>)
    ensures Normal(segments)
  {
    Walk([], Parts(path))
  }

  function Format(segments: seq<string>): (path: AbsolutePath) {
    "/" + Join(segments)
  }

  /** node:path resolve, from a base directory. */
  function Resolve(base: AbsolutePath, path: string): AbsolutePath {
    Format(Walk(if IsAbsolute(path) then [] else Segments(base), Parts(path)))
  }

  function CommonLength(a: seq<string>, b: seq<string>): (k: nat)
    ensures k <= |a| && k <= |b| && a[..k] == b[..k]
    ensures k < |a| && k < |b| ==> a[k] != b[k]
  {
    if a == [] || b == [] || a[0] != b[0] then 0
    else
      var k := CommonLength(a[1..], b[1..]);
      assert a[..k + 1] == [a[0]] + a[1..][..k] && b[..k + 1] == [b[0]] + b[1..][..k];
      k + 1
  }

  function Ups(count: nat): (parts: seq<string>)
    ensures |parts| == count && forall i :: 0 <= i < count ==> parts[i] == ".."
  {
    seq(count, _ => "..")
  }

  /** node:path relative: up to the common directory, then down. */
  function Relative(from: AbsolutePath, to: AbsolutePath): string {
    var a, b := Segments(from), Segments(to);
    var k := CommonLength(a, b);
    Join(Ups(|a| - k) + b[k..])
  }

  // ---------------------------------------------------------------------------
  // The check

  /** The string test: a relative path is an escape when it is `..`, starts with `../`, or is absolute. */
  predicate Inside(path: AbsolutePath, root: AbsolutePath) {
    var rel := Relative(root, path);
    rel == "" || (rel != ".." && !("../" <= rel) && !IsAbsolute(rel))
  }

  predicate Contains(root: AbsolutePath, path: AbsolutePath) {
    Segments(root) <= Segments(path)
  }

  lemma JoinStartsWithFirst(parts: seq<string>)
    requires |parts| > 0
    ensures |parts| == 1 ==> Join(parts) == parts[0]
    ensures |parts| > 1 ==> Join(parts) == parts[0] + "/" + Join(parts[1..])
  {
  }

  /** A joined list looks like an escape exactly when its first part is `..`. */
  lemma EscapeIsFirstPart(parts: seq<string>)
    requires |parts| > 0 && parts[0] != "" && '/' !in parts[0]
    ensures Join(parts) == ".." || "../" <= Join(parts) <==> parts[0] == ".."
    ensures Join(parts) != "" && !IsAbsolute(Join(parts))
  {
    var s, first := Join(parts), parts[0];
    assert first <= s && (|first| < |s| ==> s[|first|] == '/');
    assert forall i :: 0 <= i < |first| ==> s[i] == first[i] && s[i] != '/';
    assert "../" <= s ==> s[0] == "../"[0] && s[1] == "../"[1] && s[2] == "../"[2];
    assert |first| == 2 ==> first == s[..2];
    assert first == ".." && |parts| > 1 ==> s == "../" + Join(parts[1..]);
  }

  /** The string test accepts exactly the paths whose segments start with the root's. */
  lemma InsideIsSegmentPrefix(path: AbsolutePath, root: AbsolutePath)
    ensures Inside(path, root) <==> Contains(root, path)
  {
    var a, b := Segments(root), Segments(path);
    var k := CommonLength(a, b);
    var parts := Ups(|a| - k) + b[k..];
    if k < |a| {
      assert parts[0] == "..";
      EscapeIsFirstPart(parts);
    } else {
      assert a == a[..k] == b[..k];
      assert parts == b[k..];
      if parts != [] {
        assert parts[0] == b[k];
        EscapeIsFirstPart(parts);
      }
    }
  }

  // ---------------------------------------------------------------------------
  // Canonical paths

  predicate Canonical(path: AbsolutePath) {
    path == Format(Segments(path))
  }

  lemma {:induction false} SplitOfJoin(segments: seq<string>)
    requires |segments| > 0 && Normal(segments)
    ensures Parts(Join(segments)) == segments
  {
    SplitPlain(segments[0], '/');
    if |segments| > 1 {
      SplitConcat(segments[0], '/', Join(segments[1..]));
      SplitOfJoin(segments[1..]);
      assert segments == [segments[0]] + segments[1..];
    }
  }

  lemma {:induction false} WalkDown(at: seq<string>, segments: seq<string>)
    requires Normal(at) && Normal(segments)
    ensures Walk(at, segments) == at + segments
    decreases |segments|
  {
    if segments != [] {
      WalkDown(at + [segments[0]], segments[1..]);
      assert at + segments == at + [segments[0]] + segments[1..];
    }
  }

  lemma RootParts()
    ensures Parts("/") == ["", ""]
  {
    assert "/"[1..] == "";
    assert Split("", '/') == [""];
  }

  /** Writing segments down and reading them back gives the same segments. */
  lemma FormatRoundTrip(segments: seq<string>)
    requires Normal(segments)
    ensures Segments(Format(segments)) == segments
  {
    var path := Format(segments);
    assert path[1..] == Join(segments);
    if segments == [] {
      RootParts();
      assert Walk([], ["", ""]) == Walk([], ["", ""][1..]) == Walk([], [""]) == [];
    } else {
      SplitOfJoin(segments);
      assert Parts(path) == [""] + segments;
      assert ([""] + segments)[1..] == segments;
      WalkDown([], segments);
    }
  }

  /** Whatever a caller passes, the resolved path is canonical. */
  lemma ResolvedIsCanonical(base: AbsolutePath, path: string)
    ensures Canonical(Resolve(base, path))
  {
    FormatRoundTrip(Walk(if IsAbsolute(path) then [] else Segments(base), Parts(path)));
  }

  lemma {:induction false} WalkConcat(at: seq<string>, a: seq<string>, b: seq<string>)
    requires Normal(at) && forall i :: 0 <= i < |a| ==> '/' !in a[i]
    requires forall i :: 0 <= i < |b| ==> '/' !in b[i]
    ensures Walk(at, a + b) == Walk(Walk(at, a), b)
    decreases |a|
  {
    if a == [] {
      assert a + b == b;
    } else {
      assert (a + b)[1..] == a[1..] + b;
      var next := if a[0] == "" || a[0] == "." then at
                  else if a[0] == ".." then (if at == [] then [] else at[..|at| - 1])
                  else at + [a[0]];
      WalkConcat(next, a[1..], b);
    }
  }

  /** Resolving a relative path is resolving its parts one after the other. */
  lemma ResolveInSteps(base: AbsolutePath, a: string, b: string)
    requires a != "" && !IsAbsolute(a) && !IsAbsolute(b)
    ensures Resolve(base, a + "/" + b) == Resolve(Resolve(base, a), b)
  {
    var whole := a + "/" + b;
    assert whole[0] == a[0];
    SplitConcat(a, '/', b);
    WalkConcat(Segments(base), Parts(a), Parts(b));
    FormatRoundTrip(Walk(Segments(base), Parts(a)));
  }

  /** One part: a name goes down, `..` goes up and stops at the root, `.` and the empty part stay. */
  lemma ResolveOnePart(segments: seq<string>, name: string)
    requires Normal(segments) && IsSegment(name)
    ensures Resolve(Format(segments), name) == Format(segments + [name])
    ensures Resolve(Format(segments + [name]), "..") == Format(segments)
    ensures Resolve("/", "..") == "/"
    ensures Resolve(Format(segments), ".") == Format(segments) && Resolve(Format(segments), "") == Format(segments)
  {
    FormatRoundTrip(segments);
    FormatRoundTrip(segments + [name]);
    FormatRoundTrip([]);
    assert Format([]) == "/";
    assert !IsAbsolute(name);
    SplitPlain(name, '/');
    SplitPlain("..", '/');
    SplitPlain(".", '/');
    SplitPlain("", '/');
    WalkOne(segments, name);
    WalkOne(segments + [name], "..");
    WalkOne([], "..");
    WalkOne(segments, ".");
    WalkOne(segments, "");
    assert (segments + [name])[..|segments|] == segments;
  }

  lemma WalkOne(at: seq<string>, part: string)
    requires Normal(at) && '/' !in part
    ensures Walk(at, [part]) ==
            if part == "" || part == "." then at
            else if part == ".." then (if at == [] then [] else at[..|at| - 1])
            else at + [part]
  {
    assert [part][1..] == [];
  }

  /** An absolute path is resolved for itself, whatever the base; a canonical one is itself. */
  lemma ResolveAbsolute(base: AbsolutePath, path: AbsolutePath)
    ensures Resolve(base, path) == Resolve("/", path)
    ensures Canonical(path) ==> Resolve(base, path) == path
  {
  }

  lemma {:induction false} WalkWithoutDotDot(at: seq<string>, parts: seq<string>)
    requires Normal(at) && forall i :: 0 <= i < |parts| ==> '/' !in parts[i]
    requires ".." !in parts
    ensures at <= Walk(at, parts)
    decreases |parts|
  {
    if parts != [] {
      if parts[0] == "" || parts[0] == "." {
        WalkWithoutDotDot(at, parts[1..]);
      } else {
        WalkWithoutDotDot(at + [parts[0]], parts[1..]);
      }
    }
  }

  /** A relative path without a `..` part never leaves the root, whatever else its names contain. */
  lemma RelativeWithoutDotDotStays(root: AbsolutePath, path: string)
    requires !IsAbsolute(path) && ".." !in Parts(path)
    ensures Inside(Resolve(root, path), root)
  {
    WalkWithoutDotDot(Segments(root), Parts(path));
    FormatRoundTrip(Walk(Segments(root), Parts(path)));
    InsideIsSegmentPrefix(Resolve(root, path), root);
  }

  /** A child whose name merely starts with `..` is inside; the parent directory is not. */
  lemma DotDotNamesAreOrdinary(root: AbsolutePath, name: string)
    requires IsSegment(name)
    ensures Inside(Format(Segments(root) + [".." + name]), root)
    ensures Segments(root) != [] ==> !Inside(Resolve(root, ".."), root)
  {
    var r := Segments(root);
    assert (".." + name)[2..] == name;
    assert Normal(r + [".." + name]) by {
      assert '/' !in ".." + name;
      assert |".." + name| > 2;
    }
    FormatRoundTrip(r + [".." + name]);
    InsideIsSegmentPrefix(Format(r + [".." + name]), root);
    if r != [] {
      SplitPlain("..", '/');
      var up := r[..|r| - 1];
      assert Walk(r, [".."]) == Walk(up, [".."][1..]) == up;
      FormatRoundTrip(up);
      InsideIsSegmentPrefix(Resolve(root, ".."), root);
      assert |up| < |r|;
    }
  }

  // ---------------------------------------------------------------------------
  // The shell's guard on the physical working directory

  // The shell pattern: the root itself, or the root, a slash, and anything.
  predicate GuardAccepts(cwd: AbsolutePath, root: AbsolutePath) {
    cwd == root || root + "/" <= cwd
  }

  lemma {:induction false} JoinConcat(a: seq<string>, b: seq<string>)
    requires |a| > 0 && |b| > 0
    ensures Join(a + b) == Join(a) + "/" + Join(b)
  {
    if |a| == 1 {
      assert (a + b)[1..] == b;
    } else {
      assert (a + b)[1..] == a[1..] + b;
      JoinConcat(a[1..], b);
    }
  }

  lemma FormatBelow(root: seq<string>, rest: seq<string>)
    requires root != [] && rest != []
    ensures Format(root + rest) == Format(root) + "/" + Join(rest)
  {
    JoinConcat(root, rest);
  }

  lemma {:induction false} CanonicalSplit(segments: seq<string>)
    requires Normal(segments)
    ensures Parts(Format(segments)) == [""] + if segments == [] then [""] else segments
  {
    assert Format(segments)[1..] == Join(segments);
    if segments != [] {
      SplitOfJoin(segments);
    } else {
      RootParts();
    }
  }

  lemma GuardFollowsPrefix(c: seq<string>, r: seq<string>)
    requires Normal(c) && Normal(r) && r != [] && r <= c
    ensures GuardAccepts(Format(c), Format(r))
  {
    if r != c {
      assert r + c[|r|..] == c;
      FormatBelow(r, c[|r|..]);
    }
  }

  lemma PrefixFollowsGuard(c: seq<string>, r: seq<string>)
    requires Normal(c) && Normal(r) && r != [] && GuardAccepts(Format(c), Format(r))
    ensures r <= c
  {
    var root, cwd := Format(r), Format(c);
    CanonicalSplit(r);
    CanonicalSplit(c);
    if cwd != root {
      var rest := cwd[|root| + 1..];
      assert cwd == root + "/" + rest;
      SplitConcat(root, '/', rest);
    }
    assert [""] + r <= Parts(cwd);
    assert Parts(cwd)[1] == r[0] != "";
    assert r == Parts(cwd)[1..|r| + 1] == c[..|r|];
  }

  /** On canonical paths the guard and the jail agree exactly, unless the root is `/` and the directory is not. */
  lemma GuardAgreesWithJail(cwd: AbsolutePath, root: AbsolutePath)
    requires Canonical(cwd) && Canonical(root)
    ensures (GuardAccepts(cwd, root) <==> Inside(cwd, root)) <==> (root != "/" || cwd == "/")
  {
    InsideIsSegmentPrefix(cwd, root);
    var r, c := Segments(root), Segments(cwd);
    if r == [] {
      assert root == "/";
      NoDoubleSlash(c);
    } else {
      RootIsNotSlash(r);
      if r <= c {
        GuardFollowsPrefix(c, r);
      }
      if GuardAccepts(cwd, root) {
        PrefixFollowsGuard(c, r);
      }
    }
  }

  lemma NoDoubleSlash(segments: seq<string>)
    requires Normal(segments)
    ensures !("//" <= Format(segments))
  {
    var path := Format(segments);
    if segments != [] {
      JoinStartsWithFirst(segments);
      assert path[1] == segments[0][0] != '/';
    }
  }

  lemma RootIsNotSlash(segments: seq<string>)
    requires segments != [] && Normal(segments)
    ensures Format(segments) != "/"
  {
    JoinStartsWithFirst(segments);
    assert segments[0] != "";
  }

  // ---------------------------------------------------------------------------
  // The jail object

  /** What a lookup gives: an answer, nothing there, or any other error. */
  datatype Lookup<+T> = Found(value: T) | Missing | Unreadable

  datatype Kind = Symlink | Other

  /** The file system as the jail asks it. */
  datatype Fs = Fs(realpath: AbsolutePath -> Lookup<AbsolutePath>, lstat: AbsolutePath -> Lookup<Kind>)

  datatype JailError = EmptyPath | Outside | NotFound | ThroughSymlink | IoFailed

  /** The directory part of a path. */
  function Dirname(path: AbsolutePath): AbsolutePath {
    var s := Segments(path);
    Format(if s == [] then [] else s[..|s| - 1])
  }

  /** The directory part of a path is the path without its last segment. */
  lemma DirnameIsParent(segments: seq<string>, name: string)
    requires Normal(segments) && IsSegment(name)
    ensures Dirname(Format(segments + [name])) == Format(segments)
    ensures Dirname("/") == "/"
  {
    FormatRoundTrip(segments + [name]);
    assert (segments + [name])[..|segments|] == segments;
    FormatRoundTrip([]);
    assert Format([]) == "/";
  }

  class Jail {
    const workspaceRoot: AbsolutePath
    var workspaceRealRoot: Option<AbsolutePath>

    constructor (root: AbsolutePath)
      ensures workspaceRoot == Resolve("/", root) && workspaceRealRoot == None
    {
      workspaceRoot := Resolve("/", root);
      workspaceRealRoot := None;
    }

    function ResolveLexicalPath(path: string): (r: Result<AbsolutePath, JailError>)
      ensures r.Err? <==> path == "" || '\0' in path
      ensures r.Ok? ==> Canonical(r.value)
    {
      ResolvedIsCanonical(workspaceRoot, path);
      if path == "" || '\0' in path then Err(EmptyPath) else Ok(Resolve(workspaceRoot, path))
    }

    /** The real root, looked up once. */
    method GetWorkspaceRealRoot(fs: Fs) returns (r: Result<AbsolutePath, JailError>)
      modifies this
      ensures workspaceRealRoot == if r.Ok? then Some(r.value) else None
      ensures old(workspaceRealRoot).Some? ==> workspaceRealRoot == old(workspaceRealRoot)
      ensures old(workspaceRealRoot).None? ==>
                r == match fs.realpath(workspaceRoot)
                     case Found(p) => Ok(Resolve("/", p))
                     case Missing => Err(NotFound)
                     case Unreadable => Err(IoFailed)
    {
      if workspaceRealRoot.None? {
        match fs.realpath(workspaceRoot) {
          case Found(p) => workspaceRealRoot := Some(Resolve("/", p));
          case Missing => return Err(NotFound);
          case Unreadable => return Err(IoFailed);
        }
      }
      r := Ok(workspaceRealRoot.value);
    }

    /** What a path really names lies under the real root. */
    predicate ReallyInside(path: AbsolutePath, fs: Fs)
      reads this
    {
      && workspaceRealRoot.Some? && fs.realpath(path).Found?
      && Contains(workspaceRealRoot.value, Resolve("/", fs.realpath(path).value))
    }

    /** A path is handed out exactly when both its lexical and its real form are under their roots. */
    method ResolveExistingPath(path: string, fs: Fs) returns (r: Result<AbsolutePath, JailError>)
      modifies this
      ensures var lexical := ResolveLexicalPath(path);
              && (r.Ok? <==> lexical.Ok? && Contains(workspaceRoot, lexical.value) && ReallyInside(lexical.value, fs))
              && (r == Err(EmptyPath) <==> lexical.Err?)
              && (r == Err(NotFound) || r == Err(IoFailed) <==>
                  && lexical.Ok? && Contains(workspaceRoot, lexical.value)
                  && (workspaceRealRoot.None? || !fs.realpath(lexical.value).Found?))
              && (r.Err? ==> r.error != ThroughSymlink)
      ensures r.Ok? ==>
                && r.value == Resolve("/", fs.realpath(ResolveLexicalPath(path).value).value)
                && Contains(workspaceRealRoot.value, r.value) && Canonical(r.value)
    {
      var lexical := ResolveLexicalPath(path);
      if lexical.Err? {
        return Err(lexical.error);
      }
      InsideIsSegmentPrefix(lexical.value, workspaceRoot);
      if !Inside(lexical.value, workspaceRoot) {
        return Err(Outside);
      }
      var realRoot := GetWorkspaceRealRoot(fs);
      if realRoot.Err? {
        return Err(realRoot.error);
      }
      match fs.realpath(lexical.value) {
        case Missing => r := Err(NotFound);
        case Unreadable => r := Err(IoFailed);
        case Found(target) =>
          var resolved := Resolve("/", target);
          ResolvedIsCanonical("/", target);
          InsideIsSegmentPrefix(resolved, realRoot.value);
          r := if Inside(resolved, realRoot.value) then Ok(resolved) else Err(Outside);
      }
    }

    /**
     * A write target is accepted exactly when its real parent is inside and it is
     * missing, when looked at or when resolved, or no symbolic link and really inside.
     */
    method AssertWritable(path: AbsolutePath, fs: Fs) returns (r: Result<(), JailError>)
      modifies this
      ensures r.Ok? <==>
              && ReallyInside(Dirname(path), fs)
              && (|| fs.lstat(path).Missing?
                  || (fs.lstat(path) == Found(Other) && (fs.realpath(path).Missing? || ReallyInside(path, fs))))
      // The same in terms of the parent: where its name really leads decides.
      ensures forall segments, name :: Normal(segments) && IsSegment(name) && path == Format(segments + [name]) ==>
                (r.Ok? <==>
                 && ReallyInside(Format(segments), fs)
                 && (|| fs.lstat(path).Missing?
                     || (fs.lstat(path) == Found(Other) && (fs.realpath(path).Missing? || ReallyInside(path, fs)))))
      ensures r == Err(ThroughSymlink) <==> ReallyInside(Dirname(path), fs) && fs.lstat(path) == Found(Symlink)
      ensures r == Err(NotFound) || r == Err(IoFailed) <==>
              || workspaceRealRoot.None? || !fs.realpath(Dirname(path)).Found?
              || (ReallyInside(Dirname(path), fs) &&
                  (fs.lstat(path).Unreadable? || (fs.lstat(path) == Found(Other) && fs.realpath(path).Unreadable?)))
      ensures r != Err(EmptyPath)
    {
      forall segments, name | Normal(segments) && IsSegment(name) && path == Format(segments + [name])
        ensures Dirname(path) == Format(segments)
      {
        DirnameIsParent(segments, name);
      }
      var realRoot := GetWorkspaceRealRoot(fs);
      if realRoot.Err? {
        return Err(realRoot.error);
      }
      match fs.realpath(Dirname(path)) {
        case Missing => return Err(NotFound);
        case Unreadable => return Err(IoFailed);
        case Found(parent) =>
          InsideIsSegmentPrefix(Resolve("/", parent), realRoot.value);
          if !Inside(Resolve("/", parent), realRoot.value) {
            return Err(Outside);
          }
      }
      match fs.lstat(path) {
        case Missing => return Ok(());
        case Unreadable => return Err(IoFailed);
        case Found(kind) =>
          if kind.Symlink? {
            return Err(ThroughSymlink);
          }
      }
      match fs.realpath(path) {
        case Missing => r := Ok(());
        case Unreadable => r := Err(IoFailed);
        case Found(target) =>
          InsideIsSegmentPrefix(Resolve("/", target), realRoot.value);
          r := if Inside(Resolve("/", target), realRoot.value) then Ok(()) else Err(Outside);
      }
    }
  }
}
