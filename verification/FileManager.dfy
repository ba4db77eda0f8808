// Reading, writing and listing files inside the workspace.
module FileManager {
  import opened Prelude
  import B = Base64
  import G = GlobMatcher
  import W = WorkspaceJail

  const MAX_READ_BYTES := 262144

  datatype FsError = BadOffset | BadLimit | BadContent | PatternTooLong

  // ---------------------------------------------------------------------------
  // Reading

  /** An offset as given; None when absent. */
  function NormalizeOffset(offset: Option<int>): Result<nat, FsError> {
    if offset.None? then Ok(0) else if offset.value < 0 then Err(BadOffset) else Ok(offset.value)
  }

  function NormalizeLimit(limit: Option<int>): (r: Result<nat, FsError>)
    ensures r.Ok? ==> r.value <= MAX_READ_BYTES
  {
    if limit.None? then Ok(MAX_READ_BYTES)
    else if limit.value < 0 then Err(BadLimit)
    else Ok(if limit.value < MAX_READ_BYTES then limit.value else MAX_READ_BYTES)
  }

  datatype Encoding = Utf8Text | Base64

  datatype Page = Page(content: string, size: nat, truncated: bool)

  function Min(a: int, b: int): int {
    if a < b then a else b
  }

  /** The bytes a page at an offset holds. */
  function Slice(file: seq<byte>, offset: nat, limit: nat): seq<byte> {
    if offset >= |file| then [] else file[offset..Min(offset + limit, |file|)]
  }

  /** One call of the platform's positioned read: some bytes, and none only at the end of the file. */
  method ReadAt(file: seq<byte>, buffer: array<byte>, at: nat, want: nat, position: nat, hint: nat) returns (n: nat)
    requires at + want <= buffer.Length && want > 0
    modifies buffer
    ensures n <= want && (n == 0 <==> position >= |file|) && (n == 0 || position + n <= |file|)
    ensures buffer[..at + n] == old(buffer[..at]) + if n == 0 then [] else file[position..position + n]
  {
    if position >= |file| {
      return 0;
    }
    var most := Min(want, |file| - position);
    n := if 1 <= hint <= most then hint else most;
    for i := 0 to n
      invariant buffer[..at + i] == old(buffer[..at]) + file[position..position + i]
    {
      buffer[at + i] := file[position + i];
    }
  }

  /** A slice that the file filled, and the bytes that follow it. */
  lemma SliceGrows(file: seq<byte>, offset: nat, done: nat, n: nat)
    requires |Slice(file, offset, done)| == done && 0 < n && offset + done + n <= |file|
    ensures Slice(file, offset, done) + file[offset + done..offset + done + n] == Slice(file, offset, done + n)
    ensures |Slice(file, offset, done + n)| == done + n
  {
  }

  /** Fill a buffer until it is full or the file ends; short reads change nothing. */
  method Fill(file: seq<byte>, buffer: array<byte>, start: nat, hints: nat -> nat) returns (bytesRead: nat)
    modifies buffer
    ensures bytesRead <= buffer.Length && buffer[..bytesRead] == Slice(file, start, buffer.Length)
  {
    var turn, atEnd := 0, false;
    bytesRead := 0;
    while bytesRead < buffer.Length && !atEnd
      invariant bytesRead <= buffer.Length
      invariant |Slice(file, start, bytesRead)| == bytesRead
      invariant buffer[..bytesRead] == Slice(file, start, bytesRead)
      invariant atEnd ==> start + bytesRead >= |file|
      decreases buffer.Length - bytesRead, !atEnd
    {
      var n := ReadAt(file, buffer, bytesRead, buffer.Length - bytesRead, start + bytesRead, hints(turn));
      turn := turn + 1;
      if n == 0 {
        atEnd := true;
      } else {
        SliceGrows(file, start, bytesRead, n);
        bytesRead := bytesRead + n;
      }
    }
  }

  /**
   * One page: the bytes from the offset up to the limit, whatever the platform's
   * reads return. The size was looked up before the file was opened; the platform's
   * text decoder is a function of the bytes.
   */
  method Read(file: seq<byte>, size: nat, offset: Option<int>, limit: Option<int>, encoding: Option<Encoding>,
              decodeText: seq<byte> -> string, hints: nat -> nat)
    returns (r: Result<Page, FsError>)
    ensures r == Err(BadOffset) <==> offset.Some? && offset.value < 0
    ensures r == Err(BadLimit) <==> r != Err(BadOffset) && limit.Some? && limit.value < 0
    ensures r.Err? ==> r.error.BadOffset? || r.error.BadLimit?
    ensures r.Ok? ==>
              var from := if offset.Some? then offset.value else 0;
              var most := if limit.Some? && limit.value < 262144 then limit.value else 262144;
              var slice := Slice(file, from, most);
              && (encoding == Some(Base64) ==> B.Atob(r.value.content) == Some(B.Latin1(slice)))
              && (encoding == Some(Base64) ==> r.value.content == B.Btoa(B.Latin1(slice)))
              && (encoding != Some(Base64) ==> r.value.content == decodeText(slice))
              && r.value.size == size && (r.value.truncated <==> from + |slice| < size)
  {
    var from, most := NormalizeOffset(offset), NormalizeLimit(limit);
    if from.Err? {
      return Err(from.error);
    }
    if most.Err? {
      return Err(most.error);
    }
    var start := from.value;
    var buffer := new byte[most.value](_ => 0);
    var bytesRead := Fill(file, buffer, start, hints);
    var slice := buffer[..bytesRead];
    var content := "";
    if encoding == Some(Base64) {
      content := BytesToBase64(slice);
    } else {
      content := decodeText(slice);
    }
    r := Ok(Page(content, size, start + bytesRead < size));
  }

  const CHUNK_SIZE := 0x8000

  lemma Latin1Concat(a: seq<byte>, b: seq<byte>)
    ensures B.Latin1(a) + B.Latin1(b) == B.Latin1(a + b)
  {
  }

  /** One character a byte, built chunk by chunk. */
  method BinaryString(bytes: seq<byte>) returns (binary: string)
    ensures binary == B.Latin1(bytes)
  {
    binary := "";
    var i := 0;
    while i < |bytes|
      invariant 0 <= i
      invariant binary == B.Latin1(bytes[..Min(i, |bytes|)])
      decreases |bytes| - i
    {
      var end := Min(i + CHUNK_SIZE, |bytes|);
      Latin1Concat(bytes[..i], bytes[i..end]);
      assert bytes[..end] == bytes[..i] + bytes[i..end];
      binary := binary + B.Latin1(bytes[i..end]);
      i := i + CHUNK_SIZE;
    }
    assert bytes[..|bytes|] == bytes;
  }

  /** The chunked encoder: one encoding of all bytes, which decodes to them. */
  method BytesToBase64(bytes: seq<byte>) returns (encoded: string)
    ensures encoded == B.Btoa(B.Latin1(bytes))
    ensures B.Atob(encoded) == Some(B.Latin1(bytes))
  {
    var binary := BinaryString(bytes);
    B.StandardRoundTrip(bytes);
    encoded := B.Btoa(binary);
  }

  // ---------------------------------------------------------------------------
  // Following `truncated`

  /** One page as its reader decodes it. */
  method ReadDecoded(file: seq<byte>, offset: nat, limit: Option<int>, hints: nat -> nat)
    returns (part: seq<byte>, truncated: bool)
    requires NormalizeLimit(limit).Ok?
    ensures part == Slice(file, offset, NormalizeLimit(limit).value)
    ensures truncated <==> offset + |part| < |file|
  {
    var page := Read(file, |file|, Some(offset), limit, Some(Base64), _ => "", hints);
    ghost var slice := Slice(file, offset, NormalizeLimit(limit).value);
    B.StandardRoundTrip(slice);
    part := B.CharCodes(B.Atob(page.value.content).value);
    assert part == slice;
    truncated := page.value.truncated;
  }

  /** The pages a reader gets who asks for the next bytes, with any positive limits, while told there is more. */
  method ReadAll(file: seq<byte>, limits: nat -> Option<int>, hints: nat -> nat) returns (bytes: seq<byte>, pages: nat)
    requires forall k :: NormalizeLimit(limits(k)).Ok? && NormalizeLimit(limits(k)).value > 0
    ensures bytes == file
    ensures pages <= if file == [] then 1 else |file|
  {
    bytes, pages := [], 0;
    var more := true;
    while more
      invariant |bytes| <= |file| && bytes == file[..|bytes|]
      invariant more ==> pages <= |bytes| && (pages > 0 ==> |bytes| < |file|)
      invariant pages <= if file == [] then 1 else |file|
      invariant !more ==> bytes == file
      decreases |file| - |bytes|, more
    {
      assert NormalizeLimit(limits(pages)).value > 0;
      var part, truncated := ReadDecoded(file, |bytes|, limits(pages), hints);
      bytes := bytes + part;
      assert bytes == file[..|bytes|];
      pages, more := pages + 1, truncated;
    }
  }

  // ---------------------------------------------------------------------------
  // Writing

  class File {
    var stored: seq<byte>

    constructor (bytes: seq<byte>)
      ensures stored == bytes
    {
      stored := bytes;
    }

    /** Base64 content is decoded character by character; content that does not decode leaves the file alone. */
    method WriteBase64(content: string) returns (r: Result<nat, FsError>)
      modifies this
      ensures r.Err? <==> B.Atob(content).None?
      ensures r.Err? ==> stored == old(stored)
      ensures r.Ok? ==> B.Atob(content) == Some(B.Latin1(stored)) && r.value == |stored|
    {
      var binary := B.Atob(content);
      if binary.None? {
        return Err(BadContent);
      }
      var data := new byte[|binary.value|](_ => 0);
      AtobIsBinary(content);
      for i := 0 to |binary.value|
        invariant forall k :: 0 <= k < i ==> data[k] == binary.value[k] as int
      {
        data[i] := binary.value[i] as int;
      }
      stored := data[..];
      assert binary.value == B.Latin1(stored);
      r := Ok(data.Length);
    }
  }

  lemma AtobIsBinary(content: string)
    ensures B.Atob(content).Some? ==> B.IsBinary(B.Atob(content).value)
  {
  }

  lemma Latin1IsInjective(a: seq<byte>, b: seq<byte>)
    requires B.Latin1(a) == B.Latin1(b)
    ensures a == b
  {
    assert B.CharCodes(B.Latin1(a)) == a && B.CharCodes(B.Latin1(b)) == b;
  }

  /** What was read can be written back: the file that stores an encoding holds exactly its bytes. */
  method CopyThroughBase64(bytes: seq<byte>, target: File)
    modifies target
    ensures target.stored == bytes
  {
    var encoded := BytesToBase64(bytes);
    var r := target.WriteBase64(encoded);
    Latin1IsInjective(target.stored, bytes);
  }

  // ---------------------------------------------------------------------------
  // Listing

  datatype Kind = RegularFile | Directory | SymbolicLink | Unknown

  /** A directory tree as readdir shows it. */
  datatype Node =
    | Leaf(name: string, kind: Kind, size: nat)
    | Dir(name: string, size: nat, children: seq<Node>)

  datatype FileEntry = FileEntry(path: string, kind: Kind, size: nat)

  const MAX_ENTRIES := 1000

  /** Whether a glob was given and refuses the name; the empty glob is no glob. */
  predicate Filtered(name: string, glob: Option<string>) {
    glob.Some? && glob.value != "" && !G.GlobMatch(name, glob.value)
  }

  predicate TooLong(glob: Option<string>) {
    glob.Some? && |glob.value| > G.MAX_GLOB_LENGTH
  }

  /** node:path join of a resolved directory and an entry's name. */
  function PathOf(dir: string, name: string): string {
    if dir == "/" then "/" + name else dir + "/" + name
  }

  /** Joining a directory and an entry's name is going down one segment. */
  lemma JoinIsChild(segments: seq<string>, name: string)
    requires W.Normal(segments)
    ensures PathOf(W.Format(segments), name) == W.Format(segments + [name])
  {
    if segments == [] {
      assert W.Format([]) == "/" && [] + [name] == [name];
    } else {
      W.RootIsNotSlash(segments);
      W.FormatBelow(segments, [name]);
    }
  }

  /** The whole depth-first walk of a directory's children from the k-th on. */
  function FullWalk(path: string, node: Node, k: nat, glob: Option<string>): seq<FileEntry>
    requires node.Dir? && k <= |node.children|
    decreases node, |node.children| - k
  {
    if k == |node.children| then [] else ChildWalk(path, node.children[k], glob) + FullWalk(path, node, k + 1, glob)
  }

  function ChildWalk(path: string, child: Node, glob: Option<string>): seq<FileEntry>
    decreases child, if child.Dir? then |child.children| + 1 else 0
  {
    match child
    case Dir(name, _, _) => FullWalk(PathOf(path, name), child, 0, glob)
    case Leaf(name, kind, size) => if Filtered(name, glob) then [] else [FileEntry(PathOf(path, name), kind, size)]
  }

  /** Whether the walk meets a name to filter from the k-th child on. */
  ghost predicate MeetsFile(node: Node, k: nat)
    requires node.Dir? && k <= |node.children|
    decreases node, |node.children| - k
  {
    k < |node.children| &&
    (node.children[k].Leaf? || MeetsFile(node.children[k], 0) || MeetsFile(node, k + 1))
  }

  function Take(entries: seq<FileEntry>, max: nat): seq<FileEntry> {
    if |entries| <= max then entries else entries[..max]
  }

  /** A file of this name lies somewhere under a directory's children from the k-th on, and shows as this entry. */
  ghost predicate FileFrom(path: string, node: Node, k: nat, name: string, entry: FileEntry)
    requires node.Dir? && k <= |node.children|
    decreases node, |node.children| - k
  {
    k < |node.children| &&
    (IsFile(path, node.children[k], name, entry) || FileFrom(path, node, k + 1, name, entry))
  }

  ghost predicate IsFile(path: string, child: Node, name: string, entry: FileEntry)
    decreases child, if child.Dir? then |child.children| + 1 else 0
  {
    match child
    case Dir(dir, _, _) => FileFrom(PathOf(path, dir), child, 0, name, entry)
    case Leaf(leaf, kind, size) => name == leaf && entry == FileEntry(PathOf(path, leaf), kind, size)
  }

  /** No glob, the empty glob, or one that matches the name. */
  predicate Keeps(glob: Option<string>, name: string) {
    glob.None? || glob.value == "" || G.GlobMatch(name, glob.value)
  }

  ghost predicate KeptFrom(path: string, node: Node, k: nat, glob: Option<string>, entry: FileEntry)
    requires node.Dir? && k <= |node.children|
  {
    exists name :: FileFrom(path, node, k, name, entry) && Keeps(glob, name)
  }

  ghost predicate KeptChild(path: string, child: Node, glob: Option<string>, entry: FileEntry) {
    exists name :: IsFile(path, child, name, entry) && Keeps(glob, name)
  }

  lemma KeptIsHereOrLater(path: string, node: Node, k: nat, glob: Option<string>, entry: FileEntry)
    requires node.Dir? && k < |node.children|
    ensures KeptFrom(path, node, k, glob, entry) <==>
            KeptChild(path, node.children[k], glob, entry) || KeptFrom(path, node, k + 1, glob, entry)
  {
    if KeptFrom(path, node, k, glob, entry) {
      var name :| FileFrom(path, node, k, name, entry) && Keeps(glob, name);
      assert IsFile(path, node.children[k], name, entry) || FileFrom(path, node, k + 1, name, entry);
    }
    if KeptChild(path, node.children[k], glob, entry) {
      var name :| IsFile(path, node.children[k], name, entry) && Keeps(glob, name);
      assert FileFrom(path, node, k, name, entry);
    }
    if KeptFrom(path, node, k + 1, glob, entry) {
      var name :| FileFrom(path, node, k + 1, name, entry) && Keeps(glob, name);
      assert FileFrom(path, node, k, name, entry);
    }
  }

  lemma {:induction false} ChildFindsExactly(path: string, child: Node, glob: Option<string>, entry: FileEntry)
    ensures entry in ChildWalk(path, child, glob) <==> KeptChild(path, child, glob, entry)
    decreases child, if child.Dir? then |child.children| + 1 else 0
  {
    if child.Dir? {
      var inner := PathOf(path, child.name);
      WalkFindsExactly(inner, child, 0, glob, entry);
      assert forall name :: IsFile(path, child, name, entry) <==> FileFrom(inner, child, 0, name, entry);
    } else {
      assert IsFile(path, child, child.name, entry) <==>
          entry == FileEntry(PathOf(path, child.name), child.kind, child.size);
    }
  }

  /** The walk finds exactly the files under the directory whose own name the glob keeps; without one, all of them. */
  lemma {:induction false} WalkFindsExactly(path: string, node: Node, k: nat, glob: Option<string>, entry: FileEntry)
    requires node.Dir? && k <= |node.children|
    ensures entry in FullWalk(path, node, k, glob) <==> KeptFrom(path, node, k, glob, entry)
    decreases node, |node.children| - k
  {
    if k < |node.children| {
      ChildFindsExactly(path, node.children[k], glob, entry);
      WalkFindsExactly(path, node, k + 1, glob, entry);
      KeptIsHereOrLater(path, node, k, glob, entry);
    }
  }

  class Listing {
    var entries: seq<FileEntry>

    constructor ()
      ensures entries == []
    {
      entries := [];
    }

    /**
     * Push entries into the shared list, leaving as soon as it is full. A glob
     * over the length cap makes the first name it is applied to fail the walk.
     */
    method WalkDir(path: string, node: Node, max: nat, glob: Option<string>) returns (r: Result<(), FsError>)
      requires node.Dir? && |entries| <= max
      modifies this
      ensures |entries| <= max
      ensures !TooLong(glob) ==> r.Ok? && entries == Take(old(entries) + FullWalk(path, node, 0, glob), max)
      ensures r.Err? <==> TooLong(glob) && |old(entries)| < max && MeetsFile(node, 0)
      ensures r.Err? ==> r.error == PatternTooLong
      ensures TooLong(glob) ==> entries == old(entries)
      decreases node
    {
      if |entries| >= max {
        return Ok(());
      }
      ghost var start := entries;
      assert start + FullWalk(path, node, 0, glob) == entries + FullWalk(path, node, 0, glob);
      for i := 0 to |node.children|
        invariant |entries| <= max
        invariant !TooLong(glob) ==>
            Take(start + FullWalk(path, node, 0, glob), max) == Take(entries + FullWalk(path, node, i, glob), max)
        invariant TooLong(glob) ==> entries == start && |start| < max && MeetsFile(node, 0) == MeetsFile(node, i)
      {
        if |entries| >= max {
          return Ok(());
        }
        var child := node.children[i];
        ghost var prior, rest := entries, FullWalk(path, node, i + 1, glob);
        if child.Dir? {
          var sub := WalkDir(PathOf(path, child.name), child, max, glob);
          if sub.Err? {
            return sub;
          }
          if !TooLong(glob) {
            TakeTwice(prior, FullWalk(PathOf(path, child.name), child, 0, glob), rest, max);
          }
        } else {
          if glob.Some? && glob.value != "" {
            var matched, _ := G.MatchGlob(child.name, glob.value);
            if matched.Err? {
              return Err(PatternTooLong);
            }
            if !matched.value {
              assert FullWalk(path, node, i, glob) == [] + rest == rest;
              continue;
            }
          }
          assert !TooLong(glob);
          entries := entries + [FileEntry(PathOf(path, child.name), child.kind, child.size)];
          assert prior + FullWalk(path, node, i, glob) == entries + rest;
        }
      }
      assert entries + [] == entries;
      r := Ok(());
    }
  }

  /** Cutting after the first part and again at the end is cutting once. */
  lemma TakeTwice(a: seq<FileEntry>, b: seq<FileEntry>, c: seq<FileEntry>, max: nat)
    requires |a| <= max
    ensures Take(Take(a + b, max) + c, max) == Take(a + (b + c), max)
  {
    assert a + (b + c) == (a + b) + c;
    if |a + b| > max {
      assert ((a + b)[..max] + c)[..max] == (a + b)[..max] == (a + b + c)[..max];
    }
  }

  /** A recursive listing is the first thousand entries of the whole filtered walk. */
  method ListRecursively(path: string, node: Node, glob: Option<string>) returns (r: Result<seq<FileEntry>, FsError>)
    requires node.Dir?
    ensures !TooLong(glob) ==> r == Ok(Take(FullWalk(path, node, 0, glob), 1000))
    ensures TooLong(glob) ==> r == if MeetsFile(node, 0) then Err(PatternTooLong) else Ok([])
  {
    var listing := new Listing();
    assert [] + FullWalk(path, node, 0, glob) == FullWalk(path, node, 0, glob);
    var walked := listing.WalkDir(path, node, MAX_ENTRIES, glob);
    r := if walked.Ok? then Ok(listing.entries) else Err(walked.error);
  }

  /** A directory's own entries from the k-th on, under their names. */
  function FlatList(children: seq<Node>, glob: Option<string>): seq<FileEntry> {
    if children == [] then []
    else
      (if Filtered(children[0].name, glob) then []
       else [FileEntry(children[0].name, KindOf(children[0]), children[0].size)])
      + FlatList(children[1..], glob)
  }

  function KindOf(node: Node): Kind {
    if node.Dir? then Directory else node.kind
  }

  lemma {:induction false} FlatListConcat(a: seq<Node>, b: seq<Node>, glob: Option<string>)
    ensures FlatList(a + b, glob) == FlatList(a, glob) + FlatList(b, glob)
  {
    if a == [] {
      assert a + b == b;
    } else {
      var head := if Filtered(a[0].name, glob) then [] else [FileEntry(a[0].name, KindOf(a[0]), a[0].size)];
      assert (a + b)[1..] == a[1..] + b && (a + b)[0] == a[0];
      FlatListConcat(a[1..], b, glob);
      assert FlatList(a + b, glob) == head + FlatList(a[1..] + b, glob);
      assert FlatList(a, glob) == head + FlatList(a[1..], glob);
    }
  }

  /** The children whose names a pattern describes. */
  ghost function Described(children: seq<Node>, pattern: string): seq<Node> {
    if children == [] then []
    else (if G.Matches(children[0].name, pattern) then [children[0]] else []) + Described(children[1..], pattern)
  }

  /** Without a glob every child is listed, in order, under its own name, directories as directories. */
  lemma {:induction false} FlatListShowsAll(children: seq<Node>, glob: Option<string>)
    requires glob.None? || glob.value == ""
    ensures |FlatList(children, glob)| == |children|
    ensures forall i :: 0 <= i < |children| ==>
              && FlatList(children, glob)[i].path == children[i].name
              && FlatList(children, glob)[i].size == children[i].size
              && FlatList(children, glob)[i].kind == if children[i].Dir? then Directory else children[i].kind
  {
    if children != [] {
      FlatListShowsAll(children[1..], glob);
      var rest := FlatList(children[1..], glob);
      assert FlatList(children, glob)[1..] == rest;
      forall i | 1 <= i < |children|
        ensures FlatList(children, glob)[i] == rest[i - 1] && children[i] == children[1..][i - 1]
      {
      }
    }
  }

  /** With one, on names without a star, exactly the children it describes are. */
  lemma {:induction false} FlatListMeansThePattern(children: seq<Node>, pattern: string)
    requires pattern != "" && forall i :: 0 <= i < |children| ==> '*' !in children[i].name
    ensures FlatList(children, Some(pattern)) == FlatList(Described(children, pattern), None)
  {
    if children != [] {
      var head, rest := children[0], children[1..];
      assert '*' !in head.name;
      assert forall i :: 0 <= i < |rest| ==> rest[i] == children[i + 1];
      G.MatchIsComplete(head.name, pattern);
      FlatListMeansThePattern(rest, pattern);
      FlatListConcat([head], Described(rest, pattern), None);
      assert [head][1..] == [] && FlatList([], None) == [];
      assert FlatList([head], None) == [FileEntry(head.name, KindOf(head), head.size)];
      if G.Matches(head.name, pattern) {
        assert Described(children, pattern) == [head] + Described(rest, pattern);
      } else {
        assert Described(children, pattern) == Described(rest, pattern);
      }
    }
  }

  /** A plain listing is the first thousand of the directory's entries the glob keeps. */
  method ListFlat(node: Node, glob: Option<string>) returns (r: Result<seq<FileEntry>, FsError>)
    requires node.Dir?
    ensures !TooLong(glob) ==> r == Ok(Take(FlatList(node.children, glob), 1000))
    ensures TooLong(glob) ==> r == if node.children == [] then Ok([]) else Err(PatternTooLong)
  {
    var entries: seq<FileEntry> := [];
    var children := node.children;
    for i := 0 to |children|
      invariant |entries| <= MAX_ENTRIES
      invariant !TooLong(glob) ==> entries == FlatList(children[..i], glob)
      invariant TooLong(glob) ==> i == 0 && entries == []
    {
      assert children == children[..i] + children[i..];
      FlatListConcat(children[..i], children[i..], glob);
      if |entries| >= MAX_ENTRIES {
        assert entries == Take(FlatList(children, glob), MAX_ENTRIES);
        return Ok(entries);
      }
      var child := children[i];
      assert children[..i + 1] == children[..i] + [child];
      FlatListConcat(children[..i], [child], glob);
      assert [child][1..] == [];
      if glob.Some? && glob.value != "" {
        var matched, _ := G.MatchGlob(child.name, glob.value);
        if matched.Err? {
          return Err(PatternTooLong);
        }
        if !matched.value {
          continue;
        }
      }
      entries := entries + [FileEntry(child.name, KindOf(child), child.size)];
    }
    assert children[..|children|] == children;
    r := Ok(entries);
  }

  /** Below a name cap, a star-free tree is listed by what the glob means, not by how it is matched. */
  ghost predicate NamesStarFree(node: Node)
    decreases node
  {
    match node
    case Leaf(name, _, _) => '*' !in name
    case Dir(_, _, children) => forall i :: 0 <= i < |children| ==> NamesStarFree(children[i])
  }

  ghost function MeantWalk(path: string, node: Node, k: nat, pattern: string): seq<FileEntry>
    requires node.Dir? && k <= |node.children|
    decreases node, |node.children| - k
  {
    if k == |node.children| then []
    else
      (match node.children[k]
       case Dir(name, _, _) => MeantWalk(PathOf(path, name), node.children[k], 0, pattern)
       case Leaf(name, kind, size) =>
         if G.Matches(name, pattern) then [FileEntry(PathOf(path, name), kind, size)] else [])
      + MeantWalk(path, node, k + 1, pattern)
  }

  lemma {:induction false} ListingMeansThePattern(path: string, node: Node, k: nat, pattern: string)
    requires node.Dir? && k <= |node.children| && NamesStarFree(node) && pattern != ""
    ensures FullWalk(path, node, k, Some(pattern)) == MeantWalk(path, node, k, pattern)
    decreases node, |node.children| - k
  {
    if k < |node.children| {
      var child := node.children[k];
      assert NamesStarFree(child);
      if child.Dir? {
        ListingMeansThePattern(PathOf(path, child.name), child, 0, pattern);
      } else {
        G.MatchIsComplete(child.name, pattern);
      }
      ListingMeansThePattern(path, node, k + 1, pattern);
    }
  }
}
