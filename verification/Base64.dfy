// base64 and base64url (sections 4 and 5 of RFC 4648): the platform's btoa and
// atob, and the unpadded url-safe form the hosts build on them.
module Base64 {
  import opened Prelude
  import Utf8

  type sextet = d: int | 0 <= d < 64

  // ---------------------------------------------------------------------------
  // Bytes and six-bit digits

  function EncodeDigits(bytes: seq<byte>): (digits: seq<sextet>)
    ensures |digits| == (4 * |bytes| + 2) / 3
    ensures |digits| % 4 != 1
  {
    if |bytes| == 0 then []
    else if |bytes| == 1 then [bytes[0] / 4, bytes[0] % 4 * 16]
    else if |bytes| == 2 then
      [bytes[0] / 4, bytes[0] % 4 * 16 + bytes[1] / 16, bytes[1] % 16 * 4]
    else
      [bytes[0] / 4, bytes[0] % 4 * 16 + bytes[1] / 16, bytes[1] % 16 * 4 + bytes[2] / 64, bytes[2] % 64]
      + EncodeDigits(bytes[3..])
  }

  function First(d0: int, d1: int): byte
    requires 0 <= d0 < 64 && 0 <= d1 < 64
  {
    d0 * 4 + d1 / 16
  }

  function Second(d1: int, d2: int): byte
    requires 0 <= d1 < 64 && 0 <= d2 < 64
  {
    d1 % 16 * 16 + d2 / 4
  }

  function Third(d2: int, d3: int): byte
    requires 0 <= d2 < 64 && 0 <= d3 < 64
  {
    d2 % 4 * 64 + d3
  }

  function DecodeDigits(digits: seq<sextet>): (bytes: seq<byte>)
    requires |digits| % 4 != 1
  {
    if |digits| == 0 then []
    else if |digits| == 2 then [First(digits[0], digits[1])]
    else if |digits| == 3 then [First(digits[0], digits[1]), Second(digits[1], digits[2])]
    else
      [First(digits[0], digits[1]), Second(digits[1], digits[2]), Third(digits[2], digits[3])]
      + DecodeDigits(digits[4..])
  }

  /** Three bytes, four digits: each byte is put together again from its pieces. */
  lemma GroupRoundTrip(a: byte, b: byte, c: byte)
    ensures First(a / 4, a % 4 * 16 + b / 16) == a
    ensures Second(a % 4 * 16 + b / 16, b % 16 * 4 + c / 64) == b
    ensures Third(b % 16 * 4 + c / 64, c % 64) == c
  {
    assert (a % 4 * 16 + b / 16) / 16 == a % 4;
    assert (a % 4 * 16 + b / 16) % 16 == b / 16;
    assert (b % 16 * 4 + c / 64) / 4 == b % 16;
    assert (b % 16 * 4 + c / 64) % 4 == c / 64;
  }

  lemma {:induction false} DigitsRoundTrip(bytes: seq<byte>)
    ensures DecodeDigits(EncodeDigits(bytes)) == bytes
  {
    if |bytes| == 1 {
      GroupRoundTrip(bytes[0], 0, 0);
    } else if |bytes| == 2 {
      GroupRoundTrip(bytes[0], bytes[1], 0);
    } else if |bytes| >= 3 {
      GroupRoundTrip(bytes[0], bytes[1], bytes[2]);
      DigitsRoundTrip(bytes[3..]);
      assert EncodeDigits(bytes)[4..] == EncodeDigits(bytes[3..]);
      assert bytes == [bytes[0], bytes[1], bytes[2]] + bytes[3..];
    }
  }

  // ---------------------------------------------------------------------------
  // Digits and characters

  function DigitChar(d: sextet): (c: char)
    ensures DigitOf(c) == Some(d)
    ensures c != '=' && c != '-' && c != '_' && !IsAsciiWhitespace(c)
  {
    if d < 26 then 'A' + d as char
    else if d < 52 then 'a' + (d - 26) as char
    else if d < 62 then '0' + (d - 52) as char
    else if d == 62 then '+'
    else '/'
  }

  function DigitOf(c: char): Option<sextet> {
    if 'A' <= c <= 'Z' then Some(c as int - 'A' as int)
    else if 'a' <= c <= 'z' then Some(c as int - 'a' as int + 26)
    else if '0' <= c <= '9' then Some(c as int - '0' as int + 52)
    else if c == '+' then Some(62)
    else if c == '/' then Some(63)
    else None
  }

  predicate IsAsciiWhitespace(c: char) {
    c == '\t' || c == '\n' || c as int == 12 || c == '\r' || c == ' '
  }

  function DigitString(digits: seq<sextet>): (s: string)
    ensures |s| == |digits|
  {
    seq(|digits|, i requires 0 <= i < |digits| => DigitChar(digits[i]))
  }

  function Pad(count: nat): (s: string)
    ensures |s| == count
  {
    seq(count, _ => '=')
  }

  function PadTo4(s: string): (p: string)
    ensures |p| % 4 == 0 && s <= p && |p| < |s| + 4
  {
    s + Pad((4 - |s| % 4) % 4)
  }

  // ---------------------------------------------------------------------------
  // The platform's btoa and atob, on strings of one character a byte

  predicate IsBinary(s: string) {
    forall i :: 0 <= i < |s| ==> s[i] as int < 256
  }

  function Latin1(bytes: seq<byte>): (s: string)
    ensures |s| == |bytes| && IsBinary(s)
    ensures forall i :: 0 <= i < |s| ==> s[i] as int == bytes[i]
  {
    seq(|bytes|, i requires 0 <= i < |bytes| => bytes[i] as char)
  }

  function CharCodes(s: string): (bytes: seq<byte>)
    requires IsBinary(s)
    ensures |bytes| == |s| && forall i :: 0 <= i < |s| ==> bytes[i] == s[i] as int
  {
    seq(|s|, i requires 0 <= i < |s| => s[i] as int)
  }

  function Btoa(binary: string): string
    requires IsBinary(binary)
  {
    PadTo4(DigitString(EncodeDigits(CharCodes(binary))))
  }

  function StripWhitespace(s: string): string {
    if s == "" then ""
    else (if IsAsciiWhitespace(s[0]) then "" else [s[0]]) + StripWhitespace(s[1..])
  }

  function DropPadding(s: string): (r: string)
    ensures r <= s
  {
    if |s| % 4 != 0 || s == "" || s[|s| - 1] != '=' then s
    else if s[|s| - 2] != '=' then s[..|s| - 1]
    else s[..|s| - 2]
  }

  predicate AllDigits(s: string) {
    forall i :: 0 <= i < |s| ==> DigitOf(s[i]).Some?
  }

  function DigitsOf(s: string): (digits: seq<sextet>)
    requires AllDigits(s)
    ensures |digits| == |s|
  {
    seq(|s|, i requires 0 <= i < |s| => DigitOf(s[i]).value)
  }

  /** Forgiving decoding: whitespace and up to two closing `=` are dropped; None is the thrown error. */
  function Atob(data: string): Option<string> {
    var s := DropPadding(StripWhitespace(data));
    if |s| % 4 == 1 || !AllDigits(s) then None else Some(Latin1(DecodeDigits(DigitsOf(s))))
  }

  lemma {:induction false} NothingToStrip(s: string)
    requires forall i :: 0 <= i < |s| ==> !IsAsciiWhitespace(s[i])
    ensures StripWhitespace(s) == s
  {
    if s != "" {
      NothingToStrip(s[1..]);
      assert s == [s[0]] + s[1..];
    }
  }

  lemma PaddedDigitsDecode(digits: seq<sextet>)
    requires |digits| % 4 != 1
    ensures Atob(PadTo4(DigitString(digits))) == Some(Latin1(DecodeDigits(digits)))
  {
    var t := DigitString(digits);
    var p := PadTo4(t);
    forall i | 0 <= i < |p|
      ensures !IsAsciiWhitespace(p[i])
    {
      assert i < |t| ==> p[i] == DigitChar(digits[i]);
    }
    NothingToStrip(p);
    DropsExactlyThePadding(digits);
    assert DigitsOf(t) == digits;
  }

  lemma DropsExactlyThePadding(digits: seq<sextet>)
    requires |digits| % 4 != 1
    ensures DropPadding(PadTo4(DigitString(digits))) == DigitString(digits)
  {
    var t := DigitString(digits);
    var p := PadTo4(t);
    if t != "" {
      assert p[|t| - 1] == DigitChar(digits[|t| - 1]) != '=';
      assert |p| == |t| || |p| == |t| + 1 || |p| == |t| + 2;
    }
  }

  /** Decoding forgives missing padding, */
  lemma UnpaddedDecodes(digits: seq<sextet>)
    requires |digits| % 4 != 1
    ensures Atob(DigitString(digits)) == Some(Latin1(DecodeDigits(digits)))
  {
    var t := DigitString(digits);
    NothingToStrip(t);
    NothingToDrop(t);
    DigitsReadBack(digits);
  }

  lemma NothingToDrop(s: string)
    requires s != "" ==> s[|s| - 1] != '='
    ensures DropPadding(s) == s
  {
  }

  lemma DigitsReadBack(digits: seq<sextet>)
    ensures var t := DigitString(digits); AllDigits(t) && DigitsOf(t) == digits
  {
  }

  lemma {:induction false} StripConcat(a: string, b: string)
    ensures StripWhitespace(a + b) == StripWhitespace(a) + StripWhitespace(b)
  {
    if a == "" {
      assert a + b == b;
    } else {
      assert (a + b)[1..] == a[1..] + b;
      StripConcat(a[1..], b);
    }
  }

  /** and white space anywhere; */
  lemma WhitespaceIsIgnored(a: string, space: char, b: string)
    requires IsAsciiWhitespace(space)
    ensures Atob(a + [space] + b) == Atob(a + b)
  {
    StripConcat(a + [space], b);
    StripConcat(a, [space]);
    StripConcat(a, b);
    assert [space][1..] == "";
    assert StripWhitespace([space]) == "";
    assert StripWhitespace(a) + "" == StripWhitespace(a);
    assert StripWhitespace(a + [space] + b) == StripWhitespace(a + b);
  }

  /** a single left-over digit, or a character outside the alphabet, it does not. */
  lemma OthersDoNotDecode(s: string)
    requires forall i :: 0 <= i < |s| ==> !IsAsciiWhitespace(s[i]) && s[i] != '='
    requires |s| % 4 == 1 || exists i :: 0 <= i < |s| && DigitOf(s[i]).None?
    ensures Atob(s) == None
  {
    NothingToStrip(s);
    assert DropPadding(s) == s;
  }

  /** Decoding what was encoded gives the bytes back, for every byte sequence. */
  lemma StandardRoundTrip(bytes: seq<byte>)
    ensures Atob(Btoa(Latin1(bytes))) == Some(Latin1(bytes))
  {
    assert CharCodes(Latin1(bytes)) == bytes;
    PaddedDigitsDecode(EncodeDigits(bytes));
    DigitsRoundTrip(bytes);
  }

  // ---------------------------------------------------------------------------
  // The url-safe form

  function ReplaceAll(s: string, a: char, b: char): (r: string)
    ensures |r| == |s|
    ensures forall i :: 0 <= i < |s| ==> r[i] == if s[i] == a then b else s[i]
  {
    seq(|s|, i requires 0 <= i < |s| => if s[i] == a then b else s[i])
  }

  function RemoveAll(s: string, a: char): string {
    if s == "" then "" else (if s[0] == a then "" else [s[0]]) + RemoveAll(s[1..], a)
  }

  /** `+/` become `-_` and the padding goes. */
  function UrlSafe(encoded: string): string {
    RemoveAll(ReplaceAll(ReplaceAll(encoded, '+', '-'), '/', '_'), '=')
  }

  function Base64UrlOf(bytes: seq<byte>): string {
    UrlSafe(Btoa(Latin1(bytes)))
  }

  /** The encoder: one character a byte, then btoa and the url-safe substitutions. */
  method Base64Url(bytes: seq<byte>) returns (r: string)
    ensures r == Base64UrlOf(bytes)
    ensures Base64UrlBytes(r) == Some(bytes)
  {
    var binary := "";
    for i := 0 to |bytes|
      invariant binary == Latin1(bytes[..i])
    {
      binary := binary + [bytes[i] as char];
    }
    assert bytes[..|bytes|] == bytes;
    UrlRoundTrip(bytes);
    r := UrlSafe(Btoa(binary));
  }

  /** The decoder: None where the original gives null. */
  function Base64UrlBytes(value: string): Option<seq<byte>> {
    var padded := PadTo4(ReplaceAll(ReplaceAll(value, '-', '+'), '_', '/'));
    match Atob(padded)
    case None => None
    case Some(binary) => Some(if IsBinary(binary) then CharCodes(binary) else [])
  }

  predicate IsUrlChar(c: char) {
    'A' <= c <= 'Z' || 'a' <= c <= 'z' || '0' <= c <= '9' || c == '-' || c == '_'
  }

  function UrlChar(d: sextet): (c: char)
    ensures IsUrlChar(c)
  {
    if d == 62 then '-' else if d == 63 then '_' else DigitChar(d)
  }

  function UrlString(digits: seq<sextet>): (s: string)
    ensures |s| == |digits|
  {
    seq(|digits|, i requires 0 <= i < |digits| => UrlChar(digits[i]))
  }

  lemma {:induction false} RemovePadding(s: string, count: nat)
    requires '=' !in s
    ensures RemoveAll(s + Pad(count), '=') == s
    decreases |s|, count
  {
    var t := s + Pad(count);
    if s != "" {
      assert t[1..] == s[1..] + Pad(count);
      RemovePadding(s[1..], count);
      assert s == [s[0]] + s[1..];
    } else if count > 0 {
      assert t[1..] == "" + Pad(count - 1);
      RemovePadding("", count - 1);
    }
  }

  /** The url form is the digits written in the url alphabet, and nothing else. */
  lemma UrlFormIsDigits(bytes: seq<byte>)
    ensures Base64UrlOf(bytes) == UrlString(EncodeDigits(bytes))
  {
    var digits := EncodeDigits(bytes);
    assert CharCodes(Latin1(bytes)) == bytes;
    var padded := PadTo4(DigitString(digits));
    var count := |padded| - |digits|;
    assert ReplaceAll(ReplaceAll(padded, '+', '-'), '/', '_') == UrlString(digits) + Pad(count);
    RemovePadding(UrlString(digits), count);
  }

  /** Decoding an encoded token gives its bytes back, padding restored. */
  lemma UrlRoundTrip(bytes: seq<byte>)
    ensures Base64UrlBytes(Base64UrlOf(bytes)) == Some(bytes)
  {
    var digits := EncodeDigits(bytes);
    UrlFormIsDigits(bytes);
    assert ReplaceAll(ReplaceAll(UrlString(digits), '-', '+'), '_', '/') == DigitString(digits);
    PaddedDigitsDecode(digits);
    DigitsRoundTrip(bytes);
    assert CharCodes(Latin1(bytes)) == bytes;
  }

  /** Vectors of section 10 of RFC 4648: no padding, */
  lemma KnownFullGroup()
    ensures Btoa("bar") == "YmFy"
  {
    assert CharCodes("bar") == [98, 97, 114];
    var digits: seq<sextet> := [24, 38, 5, 50];
    assert EncodeDigits([98, 97, 114]) == digits + EncodeDigits([]);
    assert DigitString(digits) == "YmFy";
  }

  /** one `=`, */
  lemma KnownTwoBytes()
    ensures Btoa("fo") == "Zm8="
  {
    assert CharCodes("fo") == [102, 111] && Pad(1) == "=";
    var digits: seq<sextet> := [25, 38, 60];
    assert EncodeDigits([102, 111]) == digits;
    assert DigitString(digits) == "Zm8";
  }

  /** two `=`. */
  lemma KnownOneByte()
    ensures Btoa("f") == "Zg=="
  {
    assert CharCodes("f") == [102] && Pad(2) == "==";
    var digits: seq<sextet> := [25, 32];
    assert EncodeDigits([102]) == digits;
    assert DigitString(digits) == "Zg";
  }

  /** Bytes whose encoding needs both url substitutions and no padding. */
  lemma KnownUrlEncoding()
    ensures Base64UrlOf([0xFB, 0xFF]) == "-_8"
  {
    var bytes: seq<byte> := [0xFB, 0xFF];
    var digits: seq<sextet> := [62, 63, 60];
    assert EncodeDigits(bytes) == digits;
    UrlFormIsDigits(bytes);
    UrlDigits(digits);
  }

  lemma UrlDigits(digits: seq<sextet>)
    requires digits == [62, 63, 60]
    ensures UrlString(digits) == "-_8"
  {
  }

  // ---------------------------------------------------------------------------
  // The workspace directory of a local session

  const MAX_WORKSPACE_NAME_BYTES := 180

  datatype SegmentError = NameOutOfRange

  /** The segment a name goes by: its bytes in the url form, and back. */
  ghost predicate IsSegmentOf(segment: string, value: string) {
    |segment| >= 2 && segment[..2] == "s-" && Base64UrlBytes(segment[2..]) == Some(Utf8.Encode(value))
  }

  /** A short file name over the url alphabet: no separator, no dot. */
  predicate IsFileName(segment: string) {
    4 <= |segment| <= 242 && segment[..2] == "s-" && forall i :: 2 <= i < |segment| ==> IsUrlChar(segment[i])
  }

  method SessionWorkspaceSegment(value: string) returns (r: Result<string, SegmentError>)
    ensures r.Ok? <==> 1 <= |Utf8.Encode(value)| <= 180
    ensures r.Ok? ==> IsSegmentOf(r.value, value) && IsFileName(r.value)
    ensures r.Ok? ==> |r.value| == 2 + (4 * |Utf8.Encode(value)| + 2) / 3
  {
    var bytes := Utf8.Encode(value);
    if |bytes| == 0 || |bytes| > MAX_WORKSPACE_NAME_BYTES {
      return Err(NameOutOfRange);
    }
    var encoded := Base64Url(bytes);
    SegmentIsFileName(bytes);
    assert ("s-" + encoded)[2..] == encoded;
    r := Ok("s-" + encoded);
  }

  lemma SegmentIsFileName(bytes: seq<byte>)
    requires 1 <= |bytes| <= MAX_WORKSPACE_NAME_BYTES
    ensures IsFileName("s-" + Base64UrlOf(bytes)) && |Base64UrlOf(bytes)| == (4 * |bytes| + 2) / 3
  {
    UrlFormIsDigits(bytes);
    var s := "s-" + Base64UrlOf(bytes);
    forall i | 2 <= i < |s|
      ensures IsUrlChar(s[i])
    {
      assert s[i] == UrlChar(EncodeDigits(bytes)[i - 2]);
    }
  }

  /** Distinct session names never share a workspace directory. */
  lemma SegmentIsInjective(segment: string, a: string, b: string)
    ensures IsSegmentOf(segment, a) && IsSegmentOf(segment, b) ==> a == b
  {
    if IsSegmentOf(segment, a) && IsSegmentOf(segment, b) {
      Utf8.EncodeIsInjective(a, b);
    }
  }
}
