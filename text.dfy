/**
 * Character-level helpers shared by the sign-up and sign-in checks:
 * case-insensitive comparison (`a.toLowerCase() === b.toLowerCase()`)
 * and the phone-number pattern `/^\d{10}$/`.
 */
module Text {

  /** ASCII lower-casing of one character; every other character is kept. */
  function LowerChar(c: char): (r: char)
    ensures 'A' <= c <= 'Z' ==> 'a' <= r <= 'z' && r as int == c as int + 32
    ensures !('A' <= c <= 'Z') ==> r == c
  {
    if 'A' <= c <= 'Z' then (c as int + 32) as char else c
  }

  /** ASCII lower-casing of a string, character by character. */
  function Lower(s: string): (r: string)
    ensures |r| == |s|
    ensures forall i :: 0 <= i < |s| ==> r[i] == LowerChar(s[i])
  {
    if s == [] then [] else [LowerChar(s[0])] + Lower(s[1..])
  }

  /** Lower-casing twice is lower-casing once. */
  lemma LowerIdempotent(s: string)
    ensures Lower(Lower(s)) == Lower(s)
  {
    var once := Lower(s);
    var twice := Lower(once);
    forall i | 0 <= i < |s|
      ensures twice[i] == once[i]
    {
      assert twice[i] == LowerChar(LowerChar(s[i]));
    }
  }

  /** `a.toLowerCase() === b.toLowerCase()`. */
  predicate EqualsIgnoringCase(a: string, b: string)
  {
    Lower(a) == Lower(b)
  }

  /** Strings that differ only in the case of ASCII letters compare equal. */
  lemma EqualsIgnoringCaseOfLower(s: string)
    ensures EqualsIgnoringCase(s, Lower(s))
  {
    LowerIdempotent(s);
  }

  /** `\d` without the `u` flag: an ASCII decimal digit. */
  predicate IsDigit(c: char)
  {
    '0' <= c <= '9'
  }

  /** Consumes digits from the front of `s`, as the regex engine does for `\d*`. */
  function DigitPrefixLength(s: string): (n: nat)
    ensures n <= |s|
    ensures forall i :: 0 <= i < n ==> IsDigit(s[i])
    ensures n < |s| ==> !IsDigit(s[n])
  {
    if s != [] && IsDigit(s[0]) then 1 + DigitPrefixLength(s[1..]) else 0
  }

  /** `/^\d{10}$/.test(s)`: the whole string is a run of exactly ten digits. */
  predicate IsTenDigitPhone(s: string)
    ensures IsTenDigitPhone(s) <==> |s| == 10 && forall i :: 0 <= i < |s| ==> IsDigit(s[i])
  {
    |s| == 10 && DigitPrefixLength(s) == |s|
  }
}
