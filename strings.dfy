/**
 * Substrings, as Python's `in` on two strings finds them.
 */
module Strings {
  /** `r` occurs in `s` starting at index `i`. */
  predicate InfixAt(r: string, s: string, i: nat)
    requires i + |r| <= |s|
  {
    s[i..i + |r|] == r
  }

  /** Python's `sub in s`: `sub` occurs at some index of `s`. */
  predicate HasInfix(s: string, sub: string) {
    exists i :: 0 <= i <= |s| - |sub| && InfixAt(sub, s, i)
  }
}
