// The wildcard matcher of the file manager: `*` stands for any run of
// characters, `?` for any single one.
module GlobMatcher {
  import opened Prelude

  const MAX_GLOB_LENGTH := 1024

  datatype GlobError = PatternTooLong

  /** What a pattern means: the reference the two-pointer scan is measured against. */
  ghost predicate Matches(name: string, pattern: string)
    decreases |pattern|
  {
    if pattern == "" then name == ""
    else if pattern[0] == '*' then exists k :: 0 <= k <= |name| && Matches(name[k..], pattern[1..])
    else name != "" && (pattern[0] == '?' || pattern[0] == name[0]) && Matches(name[1..], pattern[1..])
  }

  predicate OnlyStars(pattern: string, j: nat)
    requires j <= |pattern|
  {
    forall k :: j <= k < |pattern| ==> pattern[k] == '*'
  }

  /** One pattern character consumes one name character: the first test of the loop. */
  predicate Consumes(pc: char, nc: char) {
    pc == '?' || pc == nc
  }

  /** The scan from a given position; `star` is -1 until a `*` has been recorded. */
  predicate Scan(name: string, pattern: string, i: nat, j: nat, star: int, mark: nat)
    requires i <= |name| && j <= |pattern| && mark <= i && -1 <= star < j
    decreases |name| - mark, |pattern| - j
  {
    if i == |name| then OnlyStars(pattern, j)
    else if j < |pattern| && Consumes(pattern[j], name[i]) then
      Scan(name, pattern, i + 1, j + 1, star, mark)
    else if j < |pattern| && pattern[j] == '*' then
      Scan(name, pattern, i, j + 1, j, i)
    else if star != -1 then
      Scan(name, pattern, mark + 1, star + 1, star, mark + 1)
    else false
  }

  /** The verdict of the matcher on a pattern within the length cap. */
  predicate GlobMatch(name: string, pattern: string) {
    Scan(name, pattern, 0, 0, -1, 0)
  }

  /** The loop itself, with the number of iterations it took. */
  method MatchGlob(name: string, pattern: string) returns (r: Result<bool, GlobError>, steps: nat)
    ensures r.Err? <==> |pattern| > 1024
    ensures r.Ok? ==> r.value == GlobMatch(name, pattern)
    ensures r.Ok? && r.value ==> Matches(name, pattern)
    ensures r.Ok? && '*' !in name ==> r.value == Matches(name, pattern)
    ensures steps <= |name| * (|pattern| + 1) + |pattern|
  {
    steps := 0;
    if |pattern| > MAX_GLOB_LENGTH {
      return Err(PatternTooLong), 0;
    }
    MatchIsSound(name, pattern);
    if '*' !in name {
      MatchIsComplete(name, pattern);
    }
    var n, p := |name|, |pattern|;
    var i, j := 0, 0;
    var starIdx, matchIdx := -1, 0;
    while i < n
      invariant 0 <= matchIdx <= i <= n && 0 <= j <= p && -1 <= starIdx < j
      invariant GlobMatch(name, pattern) == Scan(name, pattern, i, j, starIdx, matchIdx)
      invariant steps <= matchIdx * (p + 1) + j
      decreases n - matchIdx, p - j
    {
      if j < p && (pattern[j] == '?' || pattern[j] == name[i]) {
        i, j := i + 1, j + 1;
      } else if j < p && pattern[j] == '*' {
        StepsGrow(matchIdx, i, p + 1);
        starIdx, matchIdx := j, i;
        j := j + 1;
      } else if starIdx != -1 {
        StepsGrow(matchIdx, matchIdx + 1, p + 1);
        assert (matchIdx + 1) * (p + 1) == matchIdx * (p + 1) + p + 1;
        j := starIdx + 1;
        matchIdx := matchIdx + 1;
        i := matchIdx;
      } else {
        StepsGrow(matchIdx, n, p + 1);
        return Ok(false), steps;
      }
      steps := steps + 1;
    }
    StepsGrow(matchIdx, n, p + 1);
    ghost var j0 := j;
    while j < p && pattern[j] == '*'
      invariant j0 <= j <= p
      invariant OnlyStars(pattern, j0) == OnlyStars(pattern, j)
    {
      j := j + 1;
    }
    r := Ok(j == p);
  }

  lemma StepsGrow(a: nat, b: nat, w: nat)
    requires a <= b
    ensures a * w <= b * w
  {
  }

  // ---------------------------------------------------------------------------
  // Facts about the meaning of a pattern

  /** A star absorbs nothing, or one more character. */
  lemma StarUnfolds(name: string, pattern: string)
    requires pattern != "" && pattern[0] == '*'
    ensures Matches(name, pattern) <==>
            Matches(name, pattern[1..]) || (name != "" && Matches(name[1..], pattern))
  {
    var rest := pattern[1..];
    assert name[0..] == name;
    if name != "" {
      forall k | 0 <= k <= |name| - 1
        ensures name[1..][k..] == name[k + 1..]
      {
      }
      if Matches(name[1..], pattern) {
        var k :| 0 <= k <= |name[1..]| && Matches(name[1..][k..], rest);
        assert Matches(name[k + 1..], rest);
      }
      if Matches(name, pattern) && !Matches(name, rest) {
        var k :| 0 <= k <= |name| && Matches(name[k..], rest);
        assert name[1..][k - 1..] == name[k..];
      }
    }
  }

  /** Where a star stops when it matches. */
  lemma StarStops(name: string, i: nat, pattern: string, s: nat) returns (stop: nat)
    requires i <= |name| && s < |pattern| && pattern[s] == '*'
    requires Matches(name[i..], pattern[s..])
    ensures i <= stop <= |name| && Matches(name[stop..], pattern[s + 1..])
  {
    var k := LeadingStarStops(name[i..], pattern[s..]);
    assert pattern[s..][1..] == pattern[s + 1..];
    assert name[i..][k..] == name[i + k..];
    stop := i + k;
  }

  lemma LeadingStarStops(name: string, pattern: string) returns (k: nat)
    requires pattern != "" && pattern[0] == '*' && Matches(name, pattern)
    ensures k <= |name| && Matches(name[k..], pattern[1..])
  {
    k :| 0 <= k <= |name| && Matches(name[k..], pattern[1..]);
  }

  /** What a star accepts from position t, it accepts from any earlier position. */
  lemma StarReachesBack(name: string, i: nat, t: nat, pattern: string)
    requires i <= t <= |name|
    requires pattern != "" && pattern[0] == '*'
    requires Matches(name[t..], pattern)
    ensures Matches(name[i..], pattern)
  {
    var k :| 0 <= k <= |name[t..]| && Matches(name[t..][k..], pattern[1..]);
    assert name[t..][k..] == name[i..][t - i + k..];
  }

  lemma {:induction false} StarsMatchNothing(pattern: string, j: nat)
    requires j <= |pattern|
    ensures Matches("", pattern[j..]) <==> OnlyStars(pattern, j)
    decreases |pattern| - j
  {
    if j < |pattern| {
      StarsMatchNothing(pattern, j + 1);
      assert pattern[j..][1..] == pattern[j + 1..];
      if pattern[j] == '*' {
        StarUnfolds("", pattern[j..]);
      }
    }
  }

  /** The stretch of pattern from a position, paired off one to one with the name. */
  ghost predicate Paired(name: string, m: nat, i: nat, pattern: string, s: nat, j: nat)
    requires m <= i <= |name| && s <= j <= |pattern|
  {
    i - m == j - s && forall t :: m <= t < i ==> Consumes(pattern[t - m + s], name[t])
  }

  ghost predicate StarFree(pattern: string, s: nat, j: nat)
    requires s <= j <= |pattern|
  {
    forall k :: s <= k < j ==> pattern[k] != '*'
  }

  lemma {:induction false} PairedExtends(name: string, m: nat, i: nat, pattern: string, s: nat, j: nat)
    requires m <= i <= |name| && s <= j <= |pattern| && Paired(name, m, i, pattern, s, j)
    requires Matches(name[i..], pattern[j..])
    ensures Matches(name[m..], pattern[s..])
    decreases i - m
  {
    if m < i {
      assert Consumes(pattern[s], name[m]);
      PairedExtends(name, m + 1, i, pattern, s + 1, j);
      assert name[m..][1..] == name[m + 1..] && pattern[s..][1..] == pattern[s + 1..];
      if pattern[s] == '*' {
        assert Matches(name[m..][1..], pattern[s..][1..]);
      }
    }
  }

  /** Without a star in the stretch, a match must pair it off: there is no choice. */
  lemma {:induction false} StarFreeIsForced(name: string, m: nat, pattern: string, s: nat, j: nat)
    requires m <= |name| && s <= j <= |pattern| && StarFree(pattern, s, j)
    requires Matches(name[m..], pattern[s..])
    ensures m + (j - s) <= |name|
    ensures Paired(name, m, m + (j - s), pattern, s, j)
    ensures Matches(name[m + (j - s)..], pattern[j..])
    decreases j - s
  {
    if s < j {
      assert pattern[s..][0] == pattern[s] != '*';
      assert name[m..][1..] == name[m + 1..] && pattern[s..][1..] == pattern[s + 1..];
      StarFreeIsForced(name, m + 1, pattern, s + 1, j);
    }
  }

  // ---------------------------------------------------------------------------
  // The scan against the meaning

  /** What the scan still has to establish: from the recorded star, or from here. */
  ghost predicate Goal(name: string, pattern: string, i: nat, j: nat, star: int, mark: nat)
    requires i <= |name| && j <= |pattern| && mark <= i && -1 <= star < j
  {
    if star == -1 then Matches(name[i..], pattern[j..]) else Matches(name[mark..], pattern[star..])
  }

  ghost predicate ScanState(name: string, pattern: string, i: nat, j: nat, star: int, mark: nat) {
    && i <= |name| && j <= |pattern| && mark <= i && -1 <= star < j
    && (star != -1 ==> pattern[star] == '*' && Paired(name, mark, i, pattern, star + 1, j))
  }

  /** An empty stretch after the star: a match from here is a match from the star. */
  lemma GoalFromHere(name: string, pattern: string, i: nat, j: nat, star: int, mark: nat)
    requires ScanState(name, pattern, i, j, star, mark)
    requires Matches(name[i..], pattern[j..])
    ensures Goal(name, pattern, i, j, star, mark)
  {
    if star != -1 {
      PairedExtends(name, mark, i, pattern, star + 1, j);
      assert pattern[star..][1..] == pattern[star + 1..];
      StarUnfolds(name[mark..], pattern[star..]);
    }
  }

  lemma {:induction false} ScanIsSound(name: string, pattern: string, i: nat, j: nat, star: int, mark: nat)
    requires ScanState(name, pattern, i, j, star, mark)
    requires Scan(name, pattern, i, j, star, mark)
    ensures Goal(name, pattern, i, j, star, mark)
    decreases |name| - mark, |pattern| - j
  {
    if i == |name| {
      StarsMatchNothing(pattern, j);
      GoalFromHere(name, pattern, i, j, star, mark);
    } else if j < |pattern| && Consumes(pattern[j], name[i]) {
      ScanIsSound(name, pattern, i + 1, j + 1, star, mark);
      if star == -1 {
        assert name[i..][1..] == name[i + 1..] && pattern[j..][1..] == pattern[j + 1..];
        assert Matches(name[i..][1..], pattern[j..][1..]);
      }
    } else if j < |pattern| && pattern[j] == '*' {
      ScanIsSound(name, pattern, i, j + 1, j, i);
      GoalFromHere(name, pattern, i, j, star, mark);
    } else {
      ScanIsSound(name, pattern, mark + 1, star + 1, star, mark + 1);
      assert name[mark..][1..] == name[mark + 1..];
      StarUnfolds(name[mark..], pattern[star..]);
    }
  }

  lemma {:induction false} ScanIsComplete(name: string, pattern: string, i: nat, j: nat, star: int, mark: nat)
    requires '*' !in name
    requires ScanState(name, pattern, i, j, star, mark)
    requires star != -1 ==> StarFree(pattern, star + 1, j)
    requires Goal(name, pattern, i, j, star, mark)
    ensures Scan(name, pattern, i, j, star, mark)
    decreases |name| - mark, |pattern| - j
  {
    if star != -1 {
      StarUnfolds(name[mark..], pattern[star..]);
      assert pattern[star..][1..] == pattern[star + 1..];
    }
    if i == |name| {
      if star != -1 {
        NoRoomToSlide(name, pattern, j, star, mark);
      }
      assert name[i..] == "";
      StarsMatchNothing(pattern, j);
    } else if j < |pattern| && Consumes(pattern[j], name[i]) {
      assert pattern[j] != '*';
      if star == -1 {
        assert name[i..][1..] == name[i + 1..] && pattern[j..][1..] == pattern[j + 1..];
      }
      ScanIsComplete(name, pattern, i + 1, j + 1, star, mark);
    } else if j < |pattern| && pattern[j] == '*' {
      if star != -1 {
        LaterStarWins(name, pattern, i, j, star, mark);
      }
      ScanIsComplete(name, pattern, i, j + 1, j, i);
    } else {
      if star == -1 {
        assert false;
      } else {
        if Matches(name[mark..], pattern[star + 1..]) {
          StarFreeIsForced(name, mark, pattern, star + 1, j);
          assert false;
        }
        assert name[mark..][1..] == name[mark + 1..];
        ScanIsComplete(name, pattern, mark + 1, star + 1, star, mark + 1);
      }
    }
  }

  /** At the end of the name the stretch already fills all of it: the star cannot move on. */
  lemma NoRoomToSlide(name: string, pattern: string, j: nat, star: nat, mark: nat)
    requires ScanState(name, pattern, |name|, j, star, mark)
    requires StarFree(pattern, star + 1, j)
    requires Matches(name[mark..], pattern[star..])
    ensures Matches("", pattern[j..])
  {
    var stop := StarStops(name, mark, pattern, star);
    StarFreeIsForced(name, stop, pattern, star + 1, j);
    assert stop == mark && stop + (j - star - 1) == |name|;
    assert name[|name|..] == "";
  }

  /** Keeping only the last star loses nothing: whatever the earlier one could do, it can. */
  lemma LaterStarWins(name: string, pattern: string, i: nat, j: nat, star: nat, mark: nat)
    requires ScanState(name, pattern, i, j, star, mark)
    requires StarFree(pattern, star + 1, j)
    requires j < |pattern| && pattern[j] == '*'
    requires Matches(name[mark..], pattern[star..])
    ensures Matches(name[i..], pattern[j..])
  {
    var stop := StarStops(name, mark, pattern, star);
    StarFreeIsForced(name, stop, pattern, star + 1, j);
    StarReachesBack(name, i, stop + (j - star - 1), pattern[j..]);
  }

  /** A pattern the matcher accepts really describes the name, whatever the name contains. */
  lemma MatchIsSound(name: string, pattern: string)
    ensures GlobMatch(name, pattern) ==> Matches(name, pattern)
  {
    assert name[0..] == name && pattern[0..] == pattern;
    if GlobMatch(name, pattern) {
      ScanIsSound(name, pattern, 0, 0, -1, 0);
    }
  }

  /** On a name without `*` the matcher decides exactly the meaning. */
  lemma MatchIsComplete(name: string, pattern: string)
    requires '*' !in name
    ensures GlobMatch(name, pattern) <==> Matches(name, pattern)
  {
    assert name[0..] == name && pattern[0..] == pattern;
    MatchIsSound(name, pattern);
    if Matches(name, pattern) {
      ScanIsComplete(name, pattern, 0, 0, -1, 0);
    }
  }

  // ---------------------------------------------------------------------------
  // A star in the name

  /** A literal star in the name consumes the pattern's star, which is then lost. */
  lemma StarInNameCounterexample()
    ensures Matches("*ab", "*") && !GlobMatch("*ab", "*")
  {
    assert "*"[1..] == "";
    assert "*ab"[3..] == "";
    assert Matches("*ab"[3..], "*"[1..]);
    assert !Scan("*ab", "*", 1, 1, -1, 0);
  }

  function Repeat(c: char, count: nat): (s: string)
    ensures |s| == count && forall k :: 0 <= k < count ==> s[k] == c
  {
    seq(count, _ => c)
  }

  /** Question marks up to a star of the name, a star, and one question mark too many for the scan. */
  function Witness(name: string, k: nat): (p: string)
    requires k < |name|
    ensures |p| == |name| + 1
    ensures p[k] == '*' && forall t :: 0 <= t < |p| && t != k ==> p[t] == '?'
  {
    Repeat('?', k) + ['*'] + Repeat('?', |name| - k)
  }

  lemma {:induction false} QuestionMarks(name: string, pattern: string)
    requires |name| == |pattern| && forall t :: 0 <= t < |pattern| ==> pattern[t] == '?'
    ensures Matches(name, pattern)
    decreases |name|
  {
    if name != "" {
      QuestionMarks(name[1..], pattern[1..]);
    }
  }

  lemma {:induction false} WitnessScanFails(name: string, k: nat, i: nat)
    requires k < |name| && name[k] == '*' && i <= |name|
    ensures !Scan(name, Witness(name, k), i, i, -1, 0)
    decreases |name| - i
  {
    var p := Witness(name, k);
    if i < |name| {
      WitnessScanFails(name, k, i + 1);
    } else {
      assert p[|name|] == '?';
    }
  }

  /** Every name with a star has a pattern that describes it and that the matcher refuses. */
  lemma StarInNameIsMissed(name: string, k: nat)
    requires k < |name| && name[k] == '*'
    ensures Matches(name, Witness(name, k)) && !GlobMatch(name, Witness(name, k))
  {
    var p := Witness(name, k);
    WitnessScanFails(name, k, 0);
    assert p[k..][1..] == p[k + 1..];
    QuestionMarks(name[k..], p[k + 1..]);
    assert name[k..][0..] == name[k..];
    assert Matches(name[k..][0..], p[k..][1..]);
    assert p[k..][0] == '*';
    assert Paired(name, 0, k, p, 0, k);
    PairedExtends(name, 0, k, p, 0, k);
    assert name[0..] == name && p[0..] == p;
  }

  ghost predicate AgreesOnEveryPattern(name: string) {
    forall pattern: string {:trigger GlobMatch(name, pattern)} ::
      |pattern| <= MAX_GLOB_LENGTH ==> (GlobMatch(name, pattern) <==> Matches(name, pattern))
  }

  /** Exactly the names without a star are matched faithfully under every pattern the cap admits. */
  lemma FaithfulExactlyWithoutStar(name: string)
    requires |name| < MAX_GLOB_LENGTH
    ensures AgreesOnEveryPattern(name) <==> '*' !in name
  {
    if '*' in name {
      var k :| 0 <= k < |name| && name[k] == '*';
      StarInNameIsMissed(name, k);
    } else {
      forall pattern: string | |pattern| <= MAX_GLOB_LENGTH
        ensures GlobMatch(name, pattern) <==> Matches(name, pattern)
      {
        MatchIsComplete(name, pattern);
      }
    }
  }
}
