/**
  Character case as the comparator uses it. The source calls the culture-sensitive
  `ToLower` / `ToUpper` of the runtime; the model replaces them by their ASCII part.
 */
module Strings {

  /** ASCII lower case of one character; every other character is left as it is. */
  function LowerChar(c: char): char
  {
    if 'A' <= c <= 'Z' then (c as int + 32) as char else c
  }

  /** ASCII upper case of one character; every other character is left as it is. */
  function UpperChar(c: char): char
  {
    if 'a' <= c <= 'z' then (c as int - 32) as char else c
  }

  function Lower(s: string): string
  {
    seq(|s|, i requires 0 <= i < |s| => LowerChar(s[i]))
  }

  function Upper(s: string): string
  {
    seq(|s|, i requires 0 <= i < |s| => UpperChar(s[i]))
  }

  /** `s.StartsWith(prefix)`: the first characters of `s` are those of `prefix`. */
  predicate StartsWith(s: string, prefix: string)
    ensures StartsWith(s, prefix) <==> |prefix| <= |s| && forall i :: 0 <= i < |prefix| ==> s[i] == prefix[i]
  {
    |prefix| <= |s| && s[..|prefix|] == prefix
  }

  /** A string that lower-casing leaves unchanged, such as every entry of the allow-list. */
  predicate IsLower(s: string)
  {
    Lower(s) == s
  }

  lemma LowerIdempotent(s: string)
    ensures Lower(Lower(s)) == Lower(s)
  {
  }

  lemma LowerConcat(a: string, b: string)
    ensures Lower(a + b) == Lower(a) + Lower(b)
  {
    assert forall i :: 0 <= i < |a + b| ==> Lower(a + b)[i] == (Lower(a) + Lower(b))[i];
  }

  /** A word of lower-case letters survives upper-casing and lower-casing again. */
  lemma LowerOfUpperLetters(s: string)
    requires forall i :: 0 <= i < |s| ==> 'a' <= s[i] <= 'z'
    ensures Lower(Upper(s)) == s
    ensures forall i :: 0 <= i < |s| ==> 'A' <= Upper(s)[i] <= 'Z'
  {
  }
}
