// String methods of the platform that several components use.
module Text {

  /** White space and line terminators, as trim and the regular expressions see them. */
  predicate IsSpace(c: char) {
    var n := c as int;
    || 9 <= n <= 13 || n == 0x20 || n == 0xA0 || n == 0x1680 || 0x2000 <= n <= 0x200A
    || n == 0x2028 || n == 0x2029 || n == 0x202F || n == 0x205F || n == 0x3000 || n == 0xFEFF
  }

  predicate SpaceWithin(s: string, from: nat, to: nat)
    requires to <= |s|
  {
    forall i :: from <= i < to ==> IsSpace(s[i])
  }

  /** How many characters trimming takes from the front. */
  function LeadingSpace(s: string): (k: nat)
    ensures k <= |s| && SpaceWithin(s, 0, k) && (k < |s| ==> !IsSpace(s[k]))
  {
    if s == "" || !IsSpace(s[0]) then 0
    else
      var k := LeadingSpace(s[1..]);
      assert forall i :: 1 <= i < k + 1 ==> s[i] == s[1..][i - 1];
      k + 1
  }

  /** Where the last character stands that is not white space, plus one. */
  function TextEnd(s: string): (k: nat)
    ensures k <= |s| && SpaceWithin(s, k, |s|) && (k > 0 ==> !IsSpace(s[k - 1]))
  {
    if s == "" || !IsSpace(s[|s| - 1]) then |s| else TextEnd(s[..|s| - 1])
  }

  function TrimStart(s: string): string {
    s[LeadingSpace(s)..]
  }

  /** A stretch of a text with nothing but white space around it. */
  predicate IsCore(t: string, s: string, from: nat, to: nat) {
    from <= to <= |s| && t == s[from..to] && SpaceWithin(s, 0, from) && SpaceWithin(s, to, |s|)
  }

  /** The text between its leading and its trailing white space. */
  function Trim(s: string): (t: string)
    ensures exists from, to :: IsCore(t, s, from, to)
    ensures t != "" ==> !IsSpace(t[0]) && !IsSpace(t[|t| - 1])
  {
    var from, to := LeadingSpace(s), TextEnd(s);
    if from < to then assert IsCore(s[from..to], s, from, to); s[from..to]
    else assert IsCore("", s, from, from); ""
  }

  /** There is nothing to trim where both ends are no white space. */
  lemma NothingToTrim(s: string)
    requires s != "" ==> !IsSpace(s[0]) && !IsSpace(s[|s| - 1])
    ensures Trim(s) == s
  {
  }

  // ---------------------------------------------------------------------------
  // Splitting

  function Split(s: string, separator: char): (parts: seq<string>)
    ensures |parts| > 0 && forall i :: 0 <= i < |parts| ==> separator !in parts[i]
  {
    if s == "" then [""]
    else if s[0] == separator then [""] + Split(s[1..], separator)
    else var rest := Split(s[1..], separator); [[s[0]] + rest[0]] + rest[1..]
  }

  /** A separator between two texts separates their parts. */
  lemma {:induction false} SplitConcat(a: string, separator: char, b: string)
    ensures Split(a + [separator] + b, separator) == Split(a, separator) + Split(b, separator)
    decreases |a|
  {
    var s := a + [separator] + b;
    if a == "" {
      assert s[1..] == b;
    } else {
      assert s[1..] == a[1..] + [separator] + b;
      SplitConcat(a[1..], separator, b);
    }
  }

  lemma {:induction false} SplitPlain(s: string, separator: char)
    requires separator !in s
    ensures Split(s, separator) == [s]
  {
    if s != "" {
      SplitPlain(s[1..], separator);
      assert [s[0]] + s[1..] == s;
    }
  }
}
