/** Reading fields and decimal numbers from text. */
module Strings {
  /** The index of the first c in s, or the length of s. */
  function Find(s: string, c: char): (i: nat)
    ensures i <= |s| && c !in s[..i]
    ensures i < |s| ==> s[i] == c
  {
    if s == "" || s[0] == c then 0 else 1 + Find(s[1..], c)
  }

  lemma {:induction false} FindEnd(s: string, c: char, rest: string)
    requires c !in s
    ensures var whole := s + [c] + rest;
      Find(whole, c) == |s| && whole[..|s|] == s && whole[|s| + 1..] == rest
  {
    var whole := s + [c] + rest;
    var n := Find(whole, c);
    assert forall i :: 0 <= i < |s| ==> whole[i] == s[i];
    assert whole[|s|] == c;
    assert forall i :: 0 <= i < n ==> whole[i] in whole[..n];
  }

  predicate IsDigit(c: char) {
    '0' <= c <= '9'
  }

  function DigitCount(s: string): (n: nat)
    ensures n <= |s|
    ensures forall i :: 0 <= i < n ==> IsDigit(s[i])
    ensures n < |s| ==> !IsDigit(s[n])
  {
    if s == "" || !IsDigit(s[0]) then 0 else 1 + DigitCount(s[1..])
  }

  function Atoi(s: string): nat
    requires forall i :: 0 <= i < |s| ==> IsDigit(s[i])
  {
    if s == "" then 0
    else
      assert IsDigit(s[|s| - 1]);
      10 * Atoi(s[..|s| - 1]) + (s[|s| - 1] as int - '0' as int)
  }
}
