/** Character classes out of which the validators' regular expressions are
    built. Every class is an explicit range test on a `char`; `\d` is the
    ASCII digit class because none of the patterns carries the `u` flag. */
module Chars {

  /** `[a-z]` */
  predicate IsLower(c: char) { 'a' <= c <= 'z' }

  /** `[A-Z]` */
  predicate IsUpper(c: char) { 'A' <= c <= 'Z' }

  /** `[0-9]`, which is also what `\d` means */
  predicate IsDigit(c: char) { '0' <= c <= '9' }

  /** `_` */
  predicate IsUnderscore(c: char) { c == '_' }

  /** `[A-Za-z_0-9]`, the alphabet of user names and passwords */
  predicate IsWordChar(c: char) {
    IsLower(c) || IsUpper(c) || IsDigit(c) || IsUnderscore(c)
  }

  /** `[一-龥]`, the CJK ideographs the e-mail local part admits */
  predicate IsHan(c: char) { '\U{4E00}' <= c <= '\U{9FA5}' }

  /** `[A-Za-z0-9一-龥]`, the alphabet of an e-mail local part */
  predicate IsLocalChar(c: char) {
    IsUpper(c) || IsLower(c) || IsDigit(c) || IsHan(c)
  }

  /** `[a-zA-Z0-9_-]`, the alphabet of an e-mail domain label */
  predicate IsDomainChar(c: char) {
    IsLower(c) || IsUpper(c) || IsDigit(c) || c == '_' || c == '-'
  }

  /** Every character of `s` is in the class `p`. */
  predicate All(s: string, p: char -> bool) {
    forall i :: 0 <= i < |s| ==> p(s[i])
  }

  /** The four classes a password may draw from, and everything else. */
  datatype CharClass = Lower | Upper | Underscore | Digit | Other

  function ClassOf(c: char): (k: CharClass)
    ensures k == Lower <==> IsLower(c)
    ensures k == Upper <==> IsUpper(c)
    ensures k == Underscore <==> IsUnderscore(c)
    ensures k == Digit <==> IsDigit(c)
    ensures k == Other <==> !IsWordChar(c)
  {
    if IsLower(c) then Lower
    else if IsUpper(c) then Upper
    else if IsUnderscore(c) then Underscore
    else if IsDigit(c) then Digit
    else Other
  }

  /** A class holds of a concatenation when it holds of both halves. */
  lemma AllConcat(a: string, b: string, p: char -> bool)
    requires All(a, p) && All(b, p)
    ensures All(a + b, p)
  {
    forall i | 0 <= i < |a + b|
      ensures p((a + b)[i])
    {
      if i < |a| {
        assert (a + b)[i] == a[i];
      } else {
        assert (a + b)[i] == b[i - |a|];
      }
    }
  }

  /** A class that holds of a string holds of each of its prefixes. */
  lemma AllPrefix(s: string, n: nat, p: char -> bool)
    requires n <= |s| && All(s, p)
    ensures All(s[..n], p)
  {
    forall i | 0 <= i < n
      ensures p(s[..n][i])
    {
      assert s[..n][i] == s[i];
    }
  }
}
