// String comparison that reads every position of both arguments.
module Crypto {

  /** Bitwise exclusive or of values that fit the platform's 32-bit operators. */
  function Xor(a: nat, b: nat): (r: nat)
    ensures r == 0 <==> a == b
    decreases a + b
  {
    if a == 0 && b == 0 then 0 else 2 * Xor(a / 2, b / 2) + (if a % 2 == b % 2 then 0 else 1)
  }

  /** Bitwise or. */
  function Or(a: nat, b: nat): (r: nat)
    ensures r == 0 <==> a == 0 && b == 0
    decreases a + b
  {
    if a == 0 && b == 0 then 0 else 2 * Or(a / 2, b / 2) + (if a % 2 == 0 && b % 2 == 0 then 0 else 1)
  }

  /** A code unit, or 0 past the end. */
  function CodeAt(s: string, i: nat): nat {
    if i < |s| then s[i] as int else 0
  }

  /** The fold never stops early, and its verdict is equality. */
  method ConstantTimeEqual(a: string, b: string) returns (equal: bool)
    ensures equal <==> a == b
  {
    var maxLen := if |a| < |b| then |b| else |a|;
    var result := Xor(|a|, |b|);
    for i := 0 to maxLen
      invariant result == 0 <==> |a| == |b| && forall k :: 0 <= k < i ==> CodeAt(a, k) == CodeAt(b, k)
    {
      result := Or(result, Xor(CodeAt(a, i), CodeAt(b, i)));
    }
    equal := result == 0;
    if equal {
      forall k | 0 <= k < |a|
        ensures a[k] == b[k]
      {
        assert CodeAt(a, k) == CodeAt(b, k);
      }
    }
  }
}
