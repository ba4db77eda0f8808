// The release run: evidence before the tag, the tag, and the read-backs after it.
module Release {
  import opened Prelude
  import opened Text

  // ---------------------------------------------------------------------------
  // Commands and what they answer

  datatype Command =
    | GitStatus
    | GitBranch
    | GitHead
    | GitRemoteMain
    | GitShowLocalTag(tag: string)
    | GitListRemoteTag(tag: string)
    | GhTagRef(tag: string)
    | GhRelease(tag: string)
    | OwnerGate
    | GitTag(tag: string, commit: string)
    | GitCatFile(tag: string)
    | GitTagObject(tag: string)
    | GitPeel(tag: string)
    | GitPush(tag: string)

  datatype CommandResult = CommandResult(exitCode: int, stdout: string, stderr: string)

  datatype Event = Event(command: Command, result: CommandResult)

  /** A decoded GitHub ref; a field that is absent or not a string is None. */
  datatype Readback =
    | NotJson
    | JsonNull
    | Json(ref: Option<string>, objectType: Option<string>, sha: Option<string>)

  // ---------------------------------------------------------------------------
  // Text

  /** The runs of characters between white space. */
  function Words(s: string): seq<string> {
    if s == "" then []
    else if IsSpace(s[0]) then Words(s[1..])
    else
      var rest := Words(s[1..]);
      if |s| > 1 && !IsSpace(s[1]) && rest != [] then [[s[0]] + rest[0]] + rest[1..] else [[s[0]]] + rest
  }

  function FindRef(lines: seq<string>, ref: string): string {
    if lines == [] then ""
    else
      var words := Words(lines[0]);
      if |words| >= 2 && words[1] == ref then words[0] else FindRef(lines[1..], ref)
  }

  function ParseRemoteRef(output: string, ref: string): string {
    FindRef(Split(output, '\n'), ref)
  }

  predicate NoSpace(s: string) {
    forall i :: 0 <= i < |s| ==> !IsSpace(s[i])
  }

  lemma {:induction false} OneWord(w: string)
    requires w != "" && NoSpace(w)
    ensures Words(w) == [w]
  {
    if |w| > 1 {
      OneWord(w[1..]);
      assert [w[0]] + w[1..] == w;
    } else {
      assert w[1..] == "" && [w[0]] == w;
    }
  }

  lemma {:induction false} WordThenSpace(w: string, space: char, rest: string)
    requires w != "" && NoSpace(w) && IsSpace(space)
    ensures Words(w + [space] + rest) == [w] + Words(rest)
    decreases |w|
  {
    var s := w + [space] + rest;
    if |w| > 1 {
      assert s[1..] == w[1..] + [space] + rest;
      WordThenSpace(w[1..], space, rest);
      assert [w[0]] + w[1..] == w;
    } else {
      assert s[1..] == [space] + rest;
      assert s[1..][1..] == rest;
      assert s[0] == w[0] && s[1] == space && [w[0]] == w;
      assert Words(s[1..]) == Words(rest);
    }
  }

  /** One line of `git ls-remote`. */
  function RemoteLine(sha: string, ref: string): string {
    sha + "\t" + ref
  }

  /** Reading a listing: the line of the wanted ref gives its object, any other line is passed over. */
  lemma RemoteRefIsRead(sha: string, ref: string, wanted: string, rest: string)
    requires sha != "" && NoSpace(sha) && ref != "" && NoSpace(ref)
    ensures ParseRemoteRef(RemoteLine(sha, ref) + "\n" + rest, wanted) ==
            if ref == wanted then sha else ParseRemoteRef(rest, wanted)
  {
    var line := RemoteLine(sha, ref);
    assert '\n' !in sha && '\n' !in ref by {
      assert IsSpace('\n');
    }
    SplitPlain(line, '\n');
    SplitConcat(line, '\n', rest);
    WordThenSpace(sha, '\t', ref);
    OneWord(ref);
    assert Words(line) == [sha, ref];
    assert ([line] + Split(rest, '\n'))[1..] == Split(rest, '\n');
  }

  lemma LastRemoteRefIsRead(sha: string, ref: string, wanted: string)
    requires sha != "" && NoSpace(sha) && ref != "" && NoSpace(ref)
    ensures ParseRemoteRef(RemoteLine(sha, ref), wanted) == if ref == wanted then sha else ""
  {
    var line := RemoteLine(sha, ref);
    assert '\n' !in sha && '\n' !in ref by {
      assert IsSpace('\n');
    }
    SplitPlain(line, '\n');
    WordThenSpace(sha, '\t', ref);
    OneWord(ref);
    assert Words(line) == [sha, ref];
    assert Split(line, '\n') == [line] && [line][1..] == [];
    assert FindRef([], wanted) == "";
  }

  predicate IsCommitId(s: string) {
    40 <= |s| <= 64 && forall i :: 0 <= i < |s| ==> '0' <= s[i] <= '9' || 'a' <= s[i] <= 'f'
  }

  predicate IsNumeral(s: string) {
    && s != "" && (forall i :: 0 <= i < |s| ==> '0' <= s[i] <= '9')
    && (|s| > 1 ==> s[0] != '0')
  }

  /** A number written in decimal, without leading zeros. */
  function Decimal(n: nat): (s: string)
    ensures s != ""
  {
    if n < 10 then ['0' + n as char] else Decimal(n / 10) + ['0' + (n % 10) as char]
  }

  function ValueOf(s: string): nat
    requires forall i :: 0 <= i < |s| ==> '0' <= s[i] <= '9'
  {
    if s == "" then 0 else 10 * ValueOf(s[..|s| - 1]) + (s[|s| - 1] as int - '0' as int)
  }

  lemma {:induction false} DecimalIsNumeral(n: nat)
    ensures IsNumeral(Decimal(n)) && (n > 0 ==> Decimal(n)[0] != '0')
  {
    if n >= 10 {
      DecimalIsNumeral(n / 10);
    }
  }

  lemma {:induction false} NumeralIsDecimal(s: string)
    requires IsNumeral(s)
    ensures Decimal(ValueOf(s)) == s && (s != "0" ==> ValueOf(s) > 0)
  {
    var front, last := s[..|s| - 1], s[|s| - 1];
    assert s == front + [last];
    if front != "" {
      assert front[0] == s[0] && |s| > 1;
      assert forall i :: 0 <= i < |front| ==> front[i] == s[i];
      NumeralIsDecimal(front);
    } else {
      assert ValueOf(front) == 0;
    }
  }

  /** The numerals are exactly the decimal numbers. */
  lemma NumeralsAreDecimals(s: string)
    ensures IsNumeral(s) <==> exists n :: s == Decimal(n)
  {
    if IsNumeral(s) {
      NumeralIsDecimal(s);
    }
    if exists n :: s == Decimal(n) {
      var n :| s == Decimal(n);
      DecimalIsNumeral(n);
    }
  }

  predicate IsStableSemver(version: string) {
    var parts := Split(version, '.');
    |parts| == 3 && forall i :: 0 <= i < 3 ==> IsNumeral(parts[i])
  }

  /** A stable version is three numerals without leading zeros. */
  lemma StableSemverIsThreeNumerals(major: string, minor: string, patch: string)
    requires '.' !in major && '.' !in minor && '.' !in patch
    ensures IsStableSemver(major + "." + minor + "." + patch) <==>
            IsNumeral(major) && IsNumeral(minor) && IsNumeral(patch)
  {
    assert major + "." + minor + "." + patch == major + ['.'] + (minor + ['.'] + patch);
    SplitPlain(major, '.');
    SplitPlain(minor, '.');
    SplitPlain(patch, '.');
    SplitConcat(major, '.', minor + ['.'] + patch);
    SplitConcat(minor, '.', patch);
    var parts := Split(major + "." + minor + "." + patch, '.');
    assert parts == [major, minor, patch];
    assert parts[0] == major && parts[1] == minor && parts[2] == patch;
  }

  function Lower(c: char): char {
    if 'A' <= c <= 'Z' then c - 'A' + 'a' else c
  }

  predicate StartsWithIgnoringCase(s: string, word: string) {
    |word| <= |s| && forall i :: 0 <= i < |word| ==> Lower(s[i]) == Lower(word[i])
  }

  /** Somewhere "not found", or "http", white space and 404, in any case. */
  predicate SaysNotFound(detail: string) {
    if detail == "" then false
    else
      || StartsWithIgnoringCase(detail, "not found")
      || (StartsWithIgnoringCase(detail, "http") && |detail| > 4 && IsSpace(detail[4])
          && "404" <= TrimStart(detail[4..]))
      || SaysNotFound(detail[1..])
  }

  function CommandDetail(r: CommandResult): string {
    var a, b := Trim(r.stdout), Trim(r.stderr);
    if a == "" then b else if b == "" then a else a + "\n" + b
  }

  function RefOf(tag: string): string {
    "refs/tags/" + tag
  }

  function PeeledRefOf(tag: string): string {
    "refs/tags/" + tag + "^{}"
  }

  /** The words of absence stand at this place, in any case. */
  predicate SaysSoAt(detail: string, i: nat)
    requires i <= |detail|
  {
    || StartsWithIgnoringCase(detail[i..], "not found")
    || (StartsWithIgnoringCase(detail[i..], "http") && i + 4 < |detail| && IsSpace(detail[i + 4])
        && exists k :: i + 4 < k <= |detail| && SpaceWithin(detail, i + 4, k) && "404" <= detail[k..])
  }

  lemma StatusFollowsSpace(s: string)
    requires s != "" && IsSpace(s[0])
    ensures "404" <= TrimStart(s) <==> exists k :: 0 < k <= |s| && SpaceWithin(s, 0, k) && "404" <= s[k..]
  {
    var lead := LeadingSpace(s);
    if "404" <= TrimStart(s) {
      assert SpaceWithin(s, 0, lead) && "404" <= s[lead..];
    }
    if exists k :: 0 < k <= |s| && SpaceWithin(s, 0, k) && "404" <= s[k..] {
      var k :| 0 < k <= |s| && SpaceWithin(s, 0, k) && "404" <= s[k..];
      assert s[k] == s[k..][0] == '4';
      assert k == lead;
    }
  }

  lemma SaysSoHere(detail: string)
    requires detail != ""
    ensures SaysSoAt(detail, 0) <==>
            || StartsWithIgnoringCase(detail, "not found")
            || (StartsWithIgnoringCase(detail, "http") && |detail| > 4 && IsSpace(detail[4])
                && "404" <= TrimStart(detail[4..]))
  {
    assert detail[0..] == detail;
    if |detail| > 4 && IsSpace(detail[4]) {
      var rest := detail[4..];
      StatusFollowsSpace(rest);
      if exists k :: 0 < k <= |rest| && SpaceWithin(rest, 0, k) && "404" <= rest[k..] {
        var k :| 0 < k <= |rest| && SpaceWithin(rest, 0, k) && "404" <= rest[k..];
        assert detail[k + 4..] == rest[k..];
        assert forall i :: 4 <= i < k + 4 ==> detail[i] == rest[i - 4];
        assert SpaceWithin(detail, 4, k + 4);
      }
      if exists k :: 4 < k <= |detail| && SpaceWithin(detail, 4, k) && "404" <= detail[k..] {
        var k :| 4 < k <= |detail| && SpaceWithin(detail, 4, k) && "404" <= detail[k..];
        assert rest[k - 4..] == detail[k..];
        assert forall i :: 0 <= i < k - 4 ==> rest[i] == detail[i + 4];
        assert SpaceWithin(rest, 0, k - 4);
      }
    }
  }

  lemma SaysSoLater(detail: string, i: nat)
    requires 0 < i <= |detail|
    ensures SaysSoAt(detail, i) <==> SaysSoAt(detail[1..], i - 1)
  {
    var rest := detail[1..];
    assert rest[i - 1..] == detail[i..];
    if i + 4 < |detail| {
      forall k | i + 4 < k <= |detail|
        ensures rest[k - 1..] == detail[k..]
        ensures SpaceWithin(detail, i + 4, k) <==> SpaceWithin(rest, i + 3, k - 1)
      {
        assert forall j :: i + 4 <= j < k ==> detail[j] == rest[j - 1];
        assert forall j :: i + 3 <= j < k - 1 ==> rest[j] == detail[j + 1];
      }
      if SaysSoAt(rest, i - 1) && !StartsWithIgnoringCase(detail[i..], "not found") {
        var k :| i + 3 < k <= |rest| && SpaceWithin(rest, i + 3, k) && "404" <= rest[k..];
        assert detail[k + 1..] == rest[k..];
      }
    }
  }

  /** A detail says not found exactly when it does so at some place. */
  lemma {:induction false} SaysNotFoundSomewhere(detail: string)
    ensures SaysNotFound(detail) <==> exists i :: 0 <= i < |detail| && SaysSoAt(detail, i)
  {
    if detail != "" {
      SaysSoHere(detail);
      SaysNotFoundSomewhere(detail[1..]);
      forall i | 0 < i < |detail|
        ensures SaysSoAt(detail, i) <==> SaysSoAt(detail[1..], i - 1)
      {
        SaysSoLater(detail, i);
      }
      if exists i :: 0 <= i < |detail| - 1 && SaysSoAt(detail[1..], i) {
        var i :| 0 <= i < |detail| - 1 && SaysSoAt(detail[1..], i);
        assert SaysSoAt(detail, i + 1);
      }
    }
  }

  /** Nothing but a failing answer that says so shows that something is absent. */
  predicate ReportsAbsence(r: CommandResult) {
    r.exitCode != 0 && SaysNotFound(CommandDetail(r))
  }

  predicate SaysSoSomewhere(s: string) {
    exists i :: 0 <= i < |s| && SaysSoAt(s, i)
  }

  /** What is said in one of two texts is said in the two together. */
  lemma SaidInEither(a: string, b: string)
    requires SaysSoSomewhere(a) || SaysSoSomewhere(b)
    ensures SaysSoSomewhere(a + b)
  {
    if SaysSoSomewhere(a) {
      var i :| 0 <= i < |a| && SaysSoAt(a, i);
      assert (a + b)[i..] == a[i..] + b;
      forall k | i + 4 < k <= |a| ensures (a + b)[k..] == a[k..] + b {}
      assert SaysSoAt(a + b, i);
    } else if a != "" {
      SaidInEither(a[1..], b);
      assert (a + b)[1..] == a[1..] + b;
      var i :| 0 <= i < |a[1..] + b| && SaysSoAt(a[1..] + b, i);
      SaysSoLater(a + b, i + 1);
    } else {
      assert a + b == b;
    }
  }

  lemma SaidInOutputs(a: string, b: string)
    ensures SaysSoSomewhere(a) || SaysSoSomewhere(b) ==> SaysSoSomewhere(a + "\n" + b)
  {
    if SaysSoSomewhere(a) {
      SaidInEither(a, "\n");
      SaidInEither(a + "\n", b);
    } else if SaysSoSomewhere(b) {
      SaidInEither(a + "\n", b);
    }
  }

  /**
   * A command that went well never shows absence. A failed one does when either of its outputs
   * says so, and with one output blank only when the other does.
   */
  lemma AbsenceIsExact(r: CommandResult)
    ensures ReportsAbsence(r) ==> r.exitCode != 0
    ensures r.exitCode != 0 && (SaysSoSomewhere(Trim(r.stdout)) || SaysSoSomewhere(Trim(r.stderr))) ==>
              ReportsAbsence(r)
    ensures Trim(r.stdout) == "" || Trim(r.stderr) == "" ==>
              (ReportsAbsence(r) <==>
               r.exitCode != 0 && (SaysSoSomewhere(Trim(r.stdout)) || SaysSoSomewhere(Trim(r.stderr))))
  {
    var a, b, both := Trim(r.stdout), Trim(r.stderr), CommandDetail(r);
    SaysNotFoundSomewhere(both);
    assert SaysSoSomewhere(a) || SaysSoSomewhere(b) ==> SaysSoSomewhere(both) by {
      SaidInOutputs(a, b);
    }
    assert !SaysSoSomewhere("");
  }

  // ---------------------------------------------------------------------------
  // The script of a run

  const MAIN_REF := "refs/heads/main"
  const LAST := 24

  predicate Succeeded(e: Event, c: Command) {
    e.command == c && e.result.exitCode == 0
  }

  /** What the k-th command answers, and how a run reads it. The script is proved for every way of both. */
  datatype Reader = Reader(
    results: nat -> CommandResult,
    trim: string -> string,
    isCommitId: string -> bool,
    remoteRef: (string, string) -> string,
    reportsAbsence: CommandResult -> bool,
    decode: string -> Readback)
  {
    function Out(trace: seq<Event>, i: nat): string
      requires i < |trace|
    {
      trim(trace[i].result.stdout)
    }

    /** The commands before the tag: identity, absence, and after the first round the owner gate. */
    function RoundCommand(j: nat, tag: string): Command {
      match j
      case 0 => GitStatus
      case 1 => GitBranch
      case 2 => GitHead
      case 3 => GitRemoteMain
      case 4 => GitShowLocalTag(tag)
      case 5 => GitListRemoteTag(tag)
      case 6 => GhTagRef(tag)
      case 7 => GhRelease(tag)
      case _ => OwnerGate
    }

    /** The tag, what it looks like locally, the push, and what origin and GitHub then say. */
    function PublishCommand(j: nat, tag: string, commit: string): Command {
      match j
      case 0 => GitTag(tag, commit)
      case 1 => GitCatFile(tag)
      case 2 => GitTagObject(tag)
      case 3 => GitPeel(tag)
      case 4 => GitPush(tag)
      case 5 => GitListRemoteTag(tag)
      case _ => GhTagRef(tag)
    }

    /** The command a run issues after `i` others: two rounds around the owner gate, then the publication. */
    function Scripted(trace: seq<Event>, i: nat, tag: string): Command
      requires i <= |trace|
    {
      if i < 9 then RoundCommand(i, tag)
      else if i < 17 then RoundCommand(i - 9, tag)
      else PublishCommand(i - 17, tag, Out(trace, 11))
    }

    predicate RoundPasses(r: CommandResult, j: nat, head: string) {
      var code, out := r.exitCode, trim(r.stdout);
      match j
      case 0 => code == 0 && out == ""
      case 1 => code == 0 && out == "main"
      case 2 => code == 0 && isCommitId(out)
      case 3 => code == 0 && remoteRef(out, MAIN_REF) == head
      case 4 => code == 1
      case 5 => code == 0 && out == ""
      case 6 => reportsAbsence(r)
      case 7 => reportsAbsence(r)
      case _ => code == 0
    }

    predicate PublishPasses(r: CommandResult, j: nat, tag: string, commit: string, tagObject: string) {
      var out := trim(r.stdout);
      && r.exitCode == 0
      && match j
         case 1 => out == "tag"
         case 3 => out == commit
         case 5 => remoteRef(out, RefOf(tag)) == tagObject && remoteRef(out, PeeledRefOf(tag)) == commit
         case 6 => decode(out) == Json(Some(RefOf(tag)), Some("tag"), Some(tagObject))
         case _ => true
    }

    /** An earlier output, while there is one. */
    function Earlier(trace: seq<Event>, i: nat): string {
      if i < |trace| then Out(trace, i) else ""
    }

    /** What the i-th answer must be for the run to go on. The second round must find the first one's commit. */
    predicate Passes(trace: seq<Event>, i: nat, tag: string)
      requires i < |trace|
    {
      var r := trace[i].result;
      if i < 9 then RoundPasses(r, i, Earlier(trace, 2))
      else if i < 17 then RoundPasses(r, i - 9, Earlier(trace, 11)) && (i == 12 ==> Out(trace, 11) == Out(trace, 2))
      else PublishPasses(r, i - 17, tag, Out(trace, 11), Earlier(trace, 19))
    }

    predicate Scheduled(trace: seq<Event>, i: nat, tag: string)
      requires i < |trace|
    {
      trace[i] == Event(Scripted(trace, i, tag), results(i))
    }

    /** The first n commands are the script's, and every answer let the run go on. */
    predicate Followed(trace: seq<Event>, n: nat, tag: string) {
      n <= |trace| && n <= LAST &&
        forall i: nat {:trigger Scheduled(trace, i, tag)} :: i < n ==> Scheduled(trace, i, tag) && Passes(trace, i, tag)
    }

    /** The run ended at the first answer that does not let it go on. */
    predicate Halted(trace: seq<Event>, tag: string) {
      var n := |trace|;
      0 < n <= LAST && Followed(trace, n - 1, tag) && Scheduled(trace, n - 1, tag) && !Passes(trace, n - 1, tag)
    }

    /** Later events change neither what was due nor what passed. */
    lemma StepLooksBack(trace: seq<Event>, e: Event, i: nat, tag: string)
      requires i < |trace|
      ensures Scheduled(trace + [e], i, tag) == Scheduled(trace, i, tag)
      ensures Passes(trace + [e], i, tag) == Passes(trace, i, tag)
    {
      var longer := trace + [e];
      assert longer[i] == trace[i];
      assert i >= 2 ==> longer[2] == trace[2];
      assert i >= 11 ==> longer[11] == trace[11];
      assert i >= 19 ==> longer[19] == trace[19];
    }

    lemma FollowedExtends(trace: seq<Event>, e: Event, n: nat, tag: string)
      requires Followed(trace, n, tag)
      ensures Followed(trace + [e], n, tag)
    {
      var longer := trace + [e];
      forall i | 0 <= i < n
        ensures Scheduled(longer, i, tag) && Passes(longer, i, tag)
      {
        assert Scheduled(trace, i, tag) && Passes(trace, i, tag);
        assert forall k :: 0 <= k < |trace| ==> longer[k] == trace[k];
        StepLooksBack(trace, e, i, tag);
      }
    }

    lemma FollowedNext(trace: seq<Event>, n: nat, tag: string)
      requires Followed(trace, n, tag) && n < |trace| && n < LAST && Scheduled(trace, n, tag) && Passes(trace, n, tag)
      ensures Followed(trace, n + 1, tag)
    {
      forall i: nat | i < n + 1
        ensures Scheduled(trace, i, tag) && Passes(trace, i, tag)
      {
        assert i < n ==> Scheduled(trace, i, tag) && Passes(trace, i, tag);
      }
    }

    lemma FollowedPrefix(trace: seq<Event>, n: nat, k: nat, tag: string)
      requires k <= n && Followed(trace, n, tag)
      ensures Followed(trace, k, tag)
    {
      forall i: nat | i < k
        ensures Scheduled(trace, i, tag) && Passes(trace, i, tag)
      {
        assert Scheduled(trace, i, tag);
      }
    }

    // What a trace proves

    /** From k on: a clean tree on main, at a commit that origin's main also has. */
    predicate IdentityRound(trace: seq<Event>, k: nat, commit: string) {
      && k + 4 <= |trace|
      && Succeeded(trace[k], GitStatus) && Out(trace, k) == ""
      && Succeeded(trace[k + 1], GitBranch) && Out(trace, k + 1) == "main"
      && Succeeded(trace[k + 2], GitHead) && Out(trace, k + 2) == commit && isCommitId(commit)
      && Succeeded(trace[k + 3], GitRemoteMain) && remoteRef(Out(trace, k + 3), MAIN_REF) == commit
    }

    /** From k on: no local tag, no origin tag, no GitHub ref, no GitHub release. */
    predicate AbsenceRound(trace: seq<Event>, k: nat, tag: string) {
      && k + 4 <= |trace|
      && trace[k].command == GitShowLocalTag(tag) && trace[k].result.exitCode == 1
      && Succeeded(trace[k + 1], GitListRemoteTag(tag)) && Out(trace, k + 1) == ""
      && trace[k + 2].command == GhTagRef(tag) && reportsAbsence(trace[k + 2].result)
      && trace[k + 3].command == GhRelease(tag) && reportsAbsence(trace[k + 3].result)
    }

    /** Both rounds of both checks, around a passing owner gate, on one commit. */
    predicate Cleared(trace: seq<Event>, tag: string, commit: string) {
      && IdentityRound(trace, 0, commit) && AbsenceRound(trace, 4, tag)
      && |trace| > 8 && Succeeded(trace[8], OwnerGate)
      && IdentityRound(trace, 9, commit) && AbsenceRound(trace, 13, tag)
    }

    /** An annotated tag object that peels to the commit. */
    predicate LocalTagMade(trace: seq<Event>, tag: string, commit: string, tagObject: string) {
      && |trace| >= 21
      && Succeeded(trace[17], GitTag(tag, commit))
      && Succeeded(trace[18], GitCatFile(tag)) && Out(trace, 18) == "tag"
      && Succeeded(trace[19], GitTagObject(tag)) && Out(trace, 19) == tagObject
      && Succeeded(trace[20], GitPeel(tag)) && Out(trace, 20) == commit
    }

    /** Pushed, and read back from origin and from GitHub as made. */
    predicate ReadBack(trace: seq<Event>, tag: string, commit: string, tagObject: string) {
      && |trace| == LAST
      && Succeeded(trace[21], GitPush(tag))
      && Succeeded(trace[22], GitListRemoteTag(tag))
      && remoteRef(Out(trace, 22), RefOf(tag)) == tagObject
      && remoteRef(Out(trace, 22), PeeledRefOf(tag)) == commit
      && Succeeded(trace[23], GhTagRef(tag))
      && decode(Out(trace, 23)) == Json(Some(RefOf(tag)), Some("tag"), Some(tagObject))
    }

    /** A published tag: made on cleared evidence, pushed and read back. */
    predicate FullyPublished(trace: seq<Event>, tag: string, commit: string, tagObject: string) {
      && Cleared(trace, tag, commit)
      && LocalTagMade(trace, tag, commit, tagObject)
      && ReadBack(trace, tag, commit, tagObject)
    }

    lemma FollowedRounds(trace: seq<Event>, k: nat, tag: string)
      requires (k == 0 || k == 9) && Followed(trace, k + 8, tag)
      ensures IdentityRound(trace, k, Out(trace, k + 2)) && AbsenceRound(trace, k + 4, tag)
      ensures k == 9 ==> Out(trace, 11) == Out(trace, 2)
    {
      assert Scheduled(trace, k, tag) && Scheduled(trace, k + 1, tag);
      assert Scheduled(trace, k + 2, tag) && Scheduled(trace, k + 3, tag);
      assert Scheduled(trace, k + 4, tag) && Scheduled(trace, k + 5, tag);
      assert Scheduled(trace, k + 6, tag) && Scheduled(trace, k + 7, tag);
    }

    lemma FirstRoundFollowed(trace: seq<Event>, tag: string)
      requires Followed(trace, 17, tag)
      ensures IdentityRound(trace, 0, Out(trace, 2)) && AbsenceRound(trace, 4, tag)
    {
      FollowedPrefix(trace, 17, 8, tag);
      FollowedRounds(trace, 0, tag);
    }

    lemma FollowedPassesGate(trace: seq<Event>, tag: string)
      requires Followed(trace, 17, tag)
      ensures Succeeded(trace[8], OwnerGate)
    {
      assert Scheduled(trace, 8, tag);
    }

    lemma FollowedIsCleared(trace: seq<Event>, tag: string)
      requires Followed(trace, 17, tag)
      ensures Cleared(trace, tag, Out(trace, 11))
    {
      FirstRoundFollowed(trace, tag);
      FollowedPassesGate(trace, tag);
      FollowedRounds(trace, 9, tag);
    }

    lemma FollowedIsTagged(trace: seq<Event>, tag: string)
      requires Followed(trace, 21, tag)
      ensures LocalTagMade(trace, tag, Out(trace, 11), Out(trace, 19))
    {
      assert Scheduled(trace, 17, tag) && Scheduled(trace, 18, tag);
      assert Scheduled(trace, 19, tag) && Scheduled(trace, 20, tag);
    }

    lemma FollowedIsReadBack(trace: seq<Event>, tag: string)
      requires |trace| == LAST && Followed(trace, LAST, tag)
      ensures ReadBack(trace, tag, Out(trace, 11), Out(trace, 19))
    {
      assert Scheduled(trace, 21, tag) && Scheduled(trace, 22, tag) && Scheduled(trace, 23, tag);
    }

    lemma FollowedIsPublished(trace: seq<Event>, tag: string)
      requires |trace| == LAST && Followed(trace, LAST, tag)
      ensures FullyPublished(trace, tag, Out(trace, 11), Out(trace, 19))
    {
      FollowedPrefix(trace, LAST, 17, tag);
      FollowedIsCleared(trace, tag);
      FollowedPrefix(trace, LAST, 21, tag);
      FollowedIsTagged(trace, tag);
      FollowedIsReadBack(trace, tag);
    }

    // Mutations

    /** The one tag, on cleared evidence, and the one push, after the tag held what it should. */
    predicate MutationsInOrder(trace: seq<Event>, tag: string) {
      forall i :: 0 <= i < |trace| && IsMutation(trace[i].command) ==>
        && |trace| > 17 && trace[17].command.GitTag? && trace[17].command.tag == tag
        && Cleared(trace, tag, trace[17].command.commit)
        && (i == 17 ||
            (i == 21 && trace[21].command == GitPush(tag)
             && LocalTagMade(trace, tag, trace[17].command.commit, Out(trace, 19))))
    }

    /** What keeping to the script says about its last stretch, whether or not the last answer passed. */
    lemma OnScriptToTheEnd(trace: seq<Event>, tag: string)
      requires Followed(trace, |trace|, tag) || Halted(trace, tag)
      ensures |trace| <= LAST && forall i :: 0 <= i < |trace| ==> Scheduled(trace, i, tag)
      ensures |trace| > 17 ==> Followed(trace, 17, tag)
      ensures |trace| > 21 ==> Followed(trace, 21, tag)
    {
      var n := if Followed(trace, |trace|, tag) then |trace| else |trace| - 1;
      if |trace| > 17 {
        FollowedPrefix(trace, n, 17, tag);
      }
      if |trace| > 21 {
        FollowedPrefix(trace, n, 21, tag);
      }
    }

    lemma ScriptedMutations(trace: seq<Event>, tag: string)
      requires |trace| <= LAST && forall i :: 0 <= i < |trace| ==> Scheduled(trace, i, tag)
      ensures forall i :: 0 <= i < |trace| ==> (IsMutation(trace[i].command) <==> i == 17 || i == 21)
      ensures |trace| > 17 ==> trace[17].command == GitTag(tag, Out(trace, 11))
      ensures |trace| > 21 ==> trace[21].command == GitPush(tag)
    {
      forall i | 0 <= i < |trace|
        ensures IsMutation(trace[i].command) <==> i == 17 || i == 21
      {
        assert Scheduled(trace, i, tag);
      }
      assert |trace| > 17 ==> Scheduled(trace, 17, tag);
      assert |trace| > 21 ==> Scheduled(trace, 21, tag);
    }

    /** A trace that keeps to the script mutates only in order, and from the 18th command on. */
    lemma ScriptMutatesInOrder(trace: seq<Event>, tag: string)
      requires Followed(trace, |trace|, tag) || Halted(trace, tag)
      ensures MutationsInOrder(trace, tag) && (Mutated(trace) <==> |trace| > 17)
    {
      assert forall i :: 0 <= i < |trace| ==> (IsMutation(trace[i].command) <==> i == 17 || i == 21) by {
        OnScriptToTheEnd(trace, tag);
        ScriptedMutations(trace, tag);
      }
      if |trace| > 17 {
        assert trace[17].command == GitTag(tag, Out(trace, 11)) && Cleared(trace, tag, Out(trace, 11)) by {
          OnScriptToTheEnd(trace, tag);
          ScriptedMutations(trace, tag);
          FollowedIsCleared(trace, tag);
        }
      }
      if |trace| > 21 {
        assert trace[21].command == GitPush(tag) && LocalTagMade(trace, tag, Out(trace, 11), Out(trace, 19)) by {
          OnScriptToTheEnd(trace, tag);
          ScriptedMutations(trace, tag);
          FollowedIsTagged(trace, tag);
        }
      }
    }

    /** Mutations in order are at most one tag and one push. */
    lemma AtMostOneOfEach(trace: seq<Event>, tag: string, i: nat, j: nat)
      requires MutationsInOrder(trace, tag) && i < |trace| && j < |trace|
      requires trace[i].command.GitTag? == trace[j].command.GitTag?
      requires IsMutation(trace[i].command) && IsMutation(trace[j].command)
      ensures i == j
    {
      assert i == 17 || i == 21;
    }
  }

  /** The reading of the script itself: JavaScript's text methods, and a JSON decoder. */
  function JavaScript(results: nat -> CommandResult, decode: string -> Readback): Reader {
    Reader(results, Trim, IsCommitId, ParseRemoteRef, ReportsAbsence, decode)
  }

  predicate IsMutation(c: Command) {
    c.GitTag? || c.GitPush?
  }

  predicate Mutated(trace: seq<Event>) {
    exists i :: 0 <= i < |trace| && IsMutation(trace[i].command)
  }

  // ---------------------------------------------------------------------------
  // The run

  // An error that blocks the run, with its mutationStarted flag.
  datatype Blocked = Blocked(mutationStarted: bool)

  datatype Outcome =
    | DryRunVerified(commit: string)
    | Published(commit: string, tagObject: string)
    | Refused(blocked: Blocked)
    | Crashed

  class Run {
    // The answers and their reading, and package.json's version: all arbitrary.
    const reader: Reader
    const version: string
    var trace: seq<Event>

    constructor (results: nat -> CommandResult, decode: string -> Readback, version: string)
      ensures this.reader == JavaScript(results, decode) && this.version == version && trace == []
    {
      reader := JavaScript(results, decode);
      this.version := version;
      trace := [];
    }

    function Tag(): string {
      "v" + version
    }

    predicate OnScript(n: nat)
      reads this
    {
      reader.Followed(trace, n, Tag())
    }

    /** The last command was the script's next one. */
    predicate Due()
      reads this
    {
      0 < |trace| <= LAST && reader.Scheduled(trace, |trace| - 1, Tag())
    }

    predicate Passed()
      reads this
    {
      0 < |trace| && reader.Passes(trace, |trace| - 1, Tag())
    }

    predicate StoppedByScript()
      reads this
    {
      reader.Halted(trace, Tag())
    }

    method Execute(c: Command) returns (r: CommandResult)
      requires OnScript(|trace|)
      modifies this
      ensures trace == old(trace) + [Event(c, r)] && r == reader.results(|old(trace)|)
      ensures Due() ==> if Passed() then OnScript(|trace|) else StoppedByScript()
    {
      r := reader.results(|trace|);
      reader.FollowedExtends(trace, Event(c, r), |trace|, Tag());
      trace := trace + [Event(c, r)];
      if Due() && Passed() {
        reader.FollowedNext(trace, |trace| - 1, Tag());
      }
    }

    method RequireSuccess(c: Command, mutationStarted: bool) returns (r: Result<string, Blocked>)
      requires OnScript(|trace|)
      modifies this
      ensures trace == old(trace) + [Event(c, reader.results(|old(trace)|))]
      ensures Due() ==> if Passed() then OnScript(|trace|) else StoppedByScript()
      ensures var result := reader.results(|old(trace)|);
              r == if result.exitCode == 0 then Ok(reader.trim(result.stdout)) else Err(Blocked(mutationStarted))
    {
      var result := Execute(c);
      r := if result.exitCode != 0 then Err(Blocked(mutationStarted)) else Ok(reader.trim(result.stdout));
    }

    /** Ok is the commit of HEAD and of origin's main; that it is the first round's is the caller's check. */
    method RequireSourceIdentity() returns (r: Result<string, Blocked>)
      requires (|trace| == 0 || |trace| == 9) && OnScript(|trace|)
      modifies this
      ensures old(trace) <= trace
      ensures r.Ok? ==>
                var k := |old(trace)|;
                && |trace| == k + 4 && r.value == reader.Out(trace, k + 2)
                && if k == 0 || r.value == reader.Out(trace, 2) then OnScript(k + 4) else StoppedByScript()
      ensures r.Err? ==> StoppedByScript() && |trace| <= |old(trace)| + 4 && r.error == Blocked(false)
    {
      var status := RequireSuccess(GitStatus, false);
      if status.Err? {
        return status;
      }
      if status.value != "" {
        return Err(Blocked(false));
      }
      var branch := Execute(GitBranch);
      if branch.exitCode != 0 || reader.trim(branch.stdout) != "main" {
        return Err(Blocked(false));
      }
      var commit := RequireSuccess(GitHead, false);
      if commit.Err? {
        return commit;
      }
      if !reader.isCommitId(commit.value) {
        return Err(Blocked(false));
      }
      var remoteMain := RequireSuccess(GitRemoteMain, false);
      if remoteMain.Err? {
        return remoteMain;
      }
      if reader.remoteRef(remoteMain.value, MAIN_REF) != commit.value {
        return Err(Blocked(false));
      }
      r := commit;
    }

    method RequireNoExistingIdentity(tag: string) returns (r: Result<(), Blocked>)
      requires (|trace| == 4 || |trace| == 13) && OnScript(|trace|) && tag == Tag()
      modifies this
      ensures old(trace) <= trace
      ensures r.Ok? ==> |trace| == |old(trace)| + 4 && OnScript(|trace|)
      ensures r.Err? ==> StoppedByScript() && |trace| <= |old(trace)| + 4 && r.error == Blocked(false)
    {
      var local := Execute(GitShowLocalTag(tag));
      if local.exitCode != 1 {
        return Err(Blocked(false));
      }
      var remote := RequireSuccess(GitListRemoteTag(tag), false);
      if remote.Err? || remote.value != "" {
        return Err(Blocked(false));
      }
      var github := Execute(GhTagRef(tag));
      if !reader.reportsAbsence(github) {
        return Err(Blocked(false));
      }
      var release := Execute(GhRelease(tag));
      if !reader.reportsAbsence(release) {
        return Err(Blocked(false));
      }
      r := Ok(());
    }

    /** What the fresh local tag is: an annotated object that peels to the commit. */
    method InspectLocalTag(commit: string, tag: string) returns (r: Result<string, Blocked>)
      requires |trace| == 18 && OnScript(18) && tag == Tag() && commit == reader.Out(trace, 11)
      modifies this
      ensures old(trace) <= trace
      ensures r.Ok? ==> |trace| == 21 && OnScript(21) && r.value == reader.Out(trace, 19)
      ensures r.Err? ==> StoppedByScript() && 18 < |trace| <= 21 && r.error == Blocked(true)
    {
      var objectType := RequireSuccess(GitCatFile(tag), true);
      if objectType.Err? || objectType.value != "tag" {
        return Err(Blocked(true));
      }
      var tagObject := RequireSuccess(GitTagObject(tag), true);
      if tagObject.Err? {
        return tagObject;
      }
      var peeled := RequireSuccess(GitPeel(tag), true);
      if peeled.Err? || peeled.value != commit {
        return Err(Blocked(true));
      }
      r := tagObject;
    }

    method CreateAndPublishTag(commit: string, tag: string) returns (r: Result<string, Blocked>)
      requires |trace| == 17 && OnScript(17) && tag == Tag() && commit == reader.Out(trace, 11)
      modifies this
      ensures old(trace) <= trace
      ensures r.Ok? ==> |trace| == 22 && OnScript(22) && r.value == reader.Out(trace, 19)
      ensures r.Err? ==> StoppedByScript() && 17 < |trace| <= 22 && r.error == Blocked(true)
    {
      var made := RequireSuccess(GitTag(tag, commit), true);
      if made.Err? {
        return made;
      }
      var tagObject := InspectLocalTag(commit, tag);
      if tagObject.Err? {
        return tagObject;
      }
      var pushed := RequireSuccess(GitPush(tag), true);
      if pushed.Err? {
        return pushed;
      }
      r := tagObject;
    }

    /** The last answer decodes to null: the one the read-back does not expect. */
    predicate NullReadback()
      reads this
    {
      |trace| == LAST && trace[23].result.exitCode == 0 && reader.decode(reader.Out(trace, 23)).JsonNull?
    }

    /** None is an error that is not a blocked deploy. */
    method VerifyPublishedTag(commit: string, tag: string, tagObject: string) returns (r: Option<Result<(), Blocked>>)
      requires |trace| == 22 && OnScript(22) && tag == Tag()
      requires commit == reader.Out(trace, 11) && tagObject == reader.Out(trace, 19)
      modifies this
      ensures old(trace) <= trace && 22 < |trace| <= LAST
      ensures if r.Some? && r.value.Ok? then OnScript(LAST) else StoppedByScript()
      ensures r == None <==> NullReadback()
      ensures r.Some? && r.value.Err? ==> r.value.error == Blocked(true)
    {
      var remote := RequireSuccess(GitListRemoteTag(tag), true);
      if remote.Err? {
        return Some(Err(remote.error));
      }
      var remoteObject, remoteCommit :=
        reader.remoteRef(remote.value, RefOf(tag)), reader.remoteRef(remote.value, PeeledRefOf(tag));
      if remoteObject != tagObject || remoteCommit != commit {
        return Some(Err(Blocked(true)));
      }
      var githubRef := RequireSuccess(GhTagRef(tag), true);
      if githubRef.Err? {
        return Some(Err(githubRef.error));
      }
      match reader.decode(githubRef.value) {
        case NotJson =>
          r := Some(Err(Blocked(true)));
        case JsonNull =>
          r := None;
        case Json(ref, objectType, sha) =>
          if ref != Some(RefOf(tag)) || objectType != Some("tag") || sha != Some(tagObject) {
            return Some(Err(Blocked(true)));
          }
          r := Some(Ok(()));
      }
    }

    /** Everything before the tag: the commit both rounds and the owner gate passed on. */
    method Clear(tag: string) returns (r: Result<string, Blocked>)
      requires trace == [] && tag == Tag()
      modifies this
      ensures r.Ok? ==> |trace| == 17 && OnScript(17) && r.value == reader.Out(trace, 11)
      ensures r.Err? ==> StoppedByScript() && |trace| <= 17 && r.error == Blocked(false)
    {
      var first := RequireSourceIdentity();
      if first.Err? {
        return first;
      }
      var absent := RequireNoExistingIdentity(tag);
      if absent.Err? {
        return Err(absent.error);
      }
      var gate := Execute(OwnerGate);
      if gate.exitCode != 0 {
        return Err(Blocked(false));
      }
      var commit := RequireSourceIdentity();
      if commit.Err? {
        return commit;
      }
      if commit.value != first.value {
        return Err(Blocked(false));
      }
      absent := RequireNoExistingIdentity(tag);
      if absent.Err? {
        return Err(absent.error);
      }
      r := commit;
    }

    /**
     * One release run, on every sequence of command results: it goes through the
     * script, ends at the first answer that does not pass, and says which side of
     * the first mutation that was, unless the answer is the null read-back.
     */
    method DeployRelease(execute: bool) returns (outcome: Outcome)
      requires trace == []
      modifies this
      ensures !IsStableSemver(version) ==> trace == [] && outcome == Refused(Blocked(false))
      ensures IsStableSemver(version) ==>
                var n := if execute then LAST else 17;
                && 0 < |trace| <= n
                && (|trace| == n && OnScript(n) ==>
                      outcome == if execute then Published(reader.Out(trace, 11), reader.Out(trace, 19))
                                 else DryRunVerified(reader.Out(trace, 11)))
                && (!(|trace| == n && OnScript(n)) ==>
                      && StoppedByScript()
                      && outcome == if NullReadback() then Crashed else Refused(Blocked(|trace| > 17)))
      ensures reader.MutationsInOrder(trace, Tag())
      ensures !execute ==> !Mutated(trace)
      ensures outcome.DryRunVerified? ==> reader.Cleared(trace, Tag(), outcome.commit)
      ensures outcome.Published? ==> reader.FullyPublished(trace, Tag(), outcome.commit, outcome.tagObject)
      // A run that mutated something says so, or is the null read-back.
      ensures Mutated(trace) <==> outcome.Published? || outcome == Refused(Blocked(true)) || outcome.Crashed?
      ensures outcome.Crashed? <==> NullReadback()
    {
      if !IsStableSemver(version) {
        return Refused(Blocked(false));
      }
      var tag := Tag();
      var commit := Clear(tag);
      if commit.Err? {
        reader.ScriptMutatesInOrder(trace, tag);
        return Refused(commit.error);
      }
      if !execute {
        reader.ScriptMutatesInOrder(trace, tag);
        reader.FollowedIsCleared(trace, tag);
        return DryRunVerified(commit.value);
      }
      outcome := Publish(commit.value, tag);
    }

    /** The tag, the push and the read-backs, on evidence already gathered. */
    method Publish(commit: string, tag: string) returns (outcome: Outcome)
      requires |trace| == 17 && OnScript(17) && tag == Tag() && commit == reader.Out(trace, 11)
      modifies this
      ensures 17 < |trace| <= LAST && reader.MutationsInOrder(trace, tag) && Mutated(trace)
      ensures |trace| == LAST && OnScript(LAST) ==>
                && outcome == Published(commit, reader.Out(trace, 19)) && commit == reader.Out(trace, 11)
                && reader.FullyPublished(trace, tag, commit, outcome.tagObject)
      ensures !(|trace| == LAST && OnScript(LAST)) ==>
                StoppedByScript() && outcome == if NullReadback() then Crashed else Refused(Blocked(true))
      ensures NullReadback() ==> StoppedByScript()
    {
      var tagObject := CreateAndPublishTag(commit, tag);
      if tagObject.Err? {
        reader.ScriptMutatesInOrder(trace, tag);
        return Refused(tagObject.error);
      }
      var verified := VerifyPublishedTag(commit, tag, tagObject.value);
      reader.ScriptMutatesInOrder(trace, tag);
      match verified {
        case None => outcome := Crashed;
        case Some(Err(blocked)) => outcome := Refused(blocked);
        case Some(Ok(_)) =>
          reader.FollowedIsPublished(trace, tag);
          outcome := Published(commit, tagObject.value);
      }
    }
  }

  // ---------------------------------------------------------------------------
  // Every ending of an executed run is reached

  function Answer(stdout: string): CommandResult {
    CommandResult(0, stdout, "")
  }

  const ABSENT := CommandResult(1, "", "not found")

  function TagListing(tag: string, commit: string, tagObject: string): string {
    RemoteLine(tagObject, RefOf(tag)) + "\n" + RemoteLine(commit, PeeledRefOf(tag))
  }

  /** Answers with which a run goes through to its last read-back, whose answer is `last`. */
  function Scenario(tag: string, commit: string, tagObject: string, last: CommandResult, k: nat): CommandResult {
    if k == 1 || k == 10 then Answer("main")
    else if k == 2 || k == 11 || k == 20 then Answer(commit)
    else if k == 3 || k == 12 then Answer(RemoteLine(commit, MAIN_REF))
    else if k == 4 || k == 13 || k == 6 || k == 7 || k == 15 || k == 16 then ABSENT
    else if k == 18 then Answer("tag")
    else if k == 19 then Answer(tagObject)
    else if k == 22 then Answer(TagListing(tag, commit, tagObject))
    else if k < 23 then Answer("")
    else last
  }

  /** A commit, a tag object and a tag as git writes them. */
  predicate WellWritten(tag: string, commit: string, tagObject: string) {
    IsCommitId(commit) && tagObject != "" && NoSpace(tagObject) && NoSpace(tag)
  }

  /** A reading that finds in the scenario's answers what was put there. */
  predicate ReadsBack(reader: Reader, tag: string, commit: string, tagObject: string) {
    && reader.trim("") == "" && reader.trim("main") == "main" && reader.trim("tag") == "tag"
    && reader.trim(commit) == commit && reader.isCommitId(commit) && reader.trim(tagObject) == tagObject
    && reader.reportsAbsence(ABSENT)
    && reader.remoteRef(reader.trim(RemoteLine(commit, MAIN_REF)), MAIN_REF) == commit
    && reader.remoteRef(reader.trim(TagListing(tag, commit, tagObject)), RefOf(tag)) == tagObject
    && reader.remoteRef(reader.trim(TagListing(tag, commit, tagObject)), PeeledRefOf(tag)) == commit
  }

  lemma PlainTextIsKept(tag: string, commit: string, tagObject: string)
    requires WellWritten(tag, commit, tagObject)
    ensures NoSpace(commit) && Trim(commit) == commit && Trim(tagObject) == tagObject
    ensures Trim("") == "" && Trim("main") == "main" && Trim("tag") == "tag"
    ensures ReportsAbsence(ABSENT)
  {
    NothingToTrim(commit);
    NothingToTrim(tagObject);
    NothingToTrim("");
    NothingToTrim("main");
    NothingToTrim("tag");
    NothingToTrim("not found");
    assert StartsWithIgnoringCase("not found", "not found");
  }

  lemma RemoteTextIsRead(tag: string, commit: string, tagObject: string)
    requires WellWritten(tag, commit, tagObject) && NoSpace(commit)
    ensures ParseRemoteRef(Trim(RemoteLine(commit, MAIN_REF)), MAIN_REF) == commit
    ensures var listing := Trim(TagListing(tag, commit, tagObject));
            ParseRemoteRef(listing, RefOf(tag)) == tagObject && ParseRemoteRef(listing, PeeledRefOf(tag)) == commit
  {
    assert NoSpace(MAIN_REF) && NoSpace(RefOf(tag)) && NoSpace(PeeledRefOf(tag));
    var main, listing := RemoteLine(commit, MAIN_REF), TagListing(tag, commit, tagObject);
    assert main[0] == commit[0] && main[|main| - 1] == MAIN_REF[|MAIN_REF| - 1];
    NothingToTrim(main);
    LastRemoteRefIsRead(commit, MAIN_REF, MAIN_REF);
    assert listing[0] == tagObject[0];
    assert listing[|listing| - 1] == PeeledRefOf(tag)[|PeeledRefOf(tag)| - 1];
    NothingToTrim(listing);
    assert |RefOf(tag)| != |PeeledRefOf(tag)|;
    RemoteRefIsRead(tagObject, RefOf(tag), RefOf(tag), RemoteLine(commit, PeeledRefOf(tag)));
    RemoteRefIsRead(tagObject, RefOf(tag), PeeledRefOf(tag), RemoteLine(commit, PeeledRefOf(tag)));
    LastRemoteRefIsRead(commit, PeeledRefOf(tag), PeeledRefOf(tag));
  }

  lemma JavaScriptReadsBack(
    results: nat -> CommandResult, decode: string -> Readback, tag: string, commit: string, tagObject: string)
    requires WellWritten(tag, commit, tagObject)
    ensures ReadsBack(JavaScript(results, decode), tag, commit, tagObject)
  {
    PlainTextIsKept(tag, commit, tagObject);
    RemoteTextIsRead(tag, commit, tagObject);
  }

  /** In the scenario every answer but the last lets the run go on. */
  lemma ScenarioGoesOn(
    reader: Reader, trace: seq<Event>, i: nat, tag: string, commit: string, tagObject: string, last: CommandResult)
    requires ReadsBack(reader, tag, commit, tagObject) && i < |trace| && i < 23
    requires forall j :: 0 <= j <= i ==> trace[j].result == Scenario(tag, commit, tagObject, last, j)
    ensures reader.Passes(trace, i, tag)
    ensures i >= 11 ==> reader.Out(trace, 11) == commit
    ensures i >= 19 ==> reader.Out(trace, 19) == tagObject
  {
    assert i >= 2 ==> trace[2].result == Answer(commit);
    assert i >= 11 ==> trace[11].result == Answer(commit);
    assert i >= 19 ==> trace[19].result == Answer(tagObject);
  }

  lemma ScenarioReachesTheEnd(
    reader: Reader, trace: seq<Event>, tag: string, commit: string, tagObject: string, last: CommandResult)
    requires ReadsBack(reader, tag, commit, tagObject)
    requires forall j: nat :: reader.results(j) == Scenario(tag, commit, tagObject, last, j)
    requires (|trace| == LAST && reader.Followed(trace, LAST, tag)) || reader.Halted(trace, tag)
    ensures |trace| == LAST && trace[23].result == last
    ensures reader.Out(trace, 11) == commit && reader.Out(trace, 19) == tagObject
    ensures reader.Followed(trace, LAST, tag) ==> reader.Passes(trace, 23, tag)
    ensures reader.Halted(trace, tag) ==> !reader.Passes(trace, 23, tag)
  {
    reader.OnScriptToTheEnd(trace, tag);
    forall j | 0 <= j < |trace|
      ensures trace[j].result == Scenario(tag, commit, tagObject, last, j)
    {
      assert reader.Scheduled(trace, j, tag);
    }
    if |trace| <= 23 {
      ScenarioGoesOn(reader, trace, |trace| - 1, tag, commit, tagObject, last);
      assert false;
    }
    ScenarioGoesOn(reader, trace, 22, tag, commit, tagObject, last);
    assert reader.Scheduled(trace, 23, tag);
  }

  /**
   * For every stable version, commit and tag object, answers exist with which an
   * executed run reaches its last read-back; its answer alone then decides between
   * published, blocked with the flag, and the unflagged crash.
   */
  method Rehearse(version: string, commit: string, tagObject: string, last: CommandResult, decode: string -> Readback)
    returns (outcome: Outcome)
    requires IsStableSemver(version) && WellWritten("v" + version, commit, tagObject)
    ensures var answer, tag := decode(Trim(last.stdout)), "v" + version;
            outcome ==
            if last.exitCode == 0 && answer == Json(Some(RefOf(tag)), Some("tag"), Some(tagObject)) then
              Published(commit, tagObject)
            else if last.exitCode == 0 && answer.JsonNull? then Crashed
            else Refused(Blocked(true))
  {
    var tag := "v" + version;
    var results := (k: nat) => Scenario(tag, commit, tagObject, last, k);
    var run := new Run(results, decode, version);
    outcome := run.DeployRelease(true);
    JavaScriptReadsBack(results, decode, tag, commit, tagObject);
    ScenarioReachesTheEnd(run.reader, run.trace, tag, commit, tagObject, last);
  }
}
