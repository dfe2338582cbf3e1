/**
  Character classes used by the validators: the pattern ^[a-zA-Z]+$ that both
  the target word and a guess must match, and lower-casing of ASCII letters.
*/
module Letters {

  predicate IsAsciiLetter(c: char) {
    'a' <= c <= 'z' || 'A' <= c <= 'Z'
  }

  predicate IsLowerLetter(c: char) {
    'a' <= c <= 'z'
  }

  /** True when the whole string matches ^[a-zA-Z]+$: non-empty and only ASCII letters. */
  predicate IsAlphabetic(s: string) {
    |s| > 0 && forall i :: 0 <= i < |s| ==> IsAsciiLetter(s[i])
  }

  /** Lower-cases an ASCII upper-case letter and leaves every other character alone. */
  function LowerChar(c: char): (d: char)
    ensures IsAsciiLetter(c) ==> IsLowerLetter(d)
    ensures IsAsciiLetter(d) <==> IsAsciiLetter(c)
    ensures !('A' <= c <= 'Z') ==> d == c
    ensures 'A' <= c <= 'Z' ==> d as int - c as int == 'a' as int - 'A' as int
  {
    if 'A' <= c <= 'Z' then (c as int - 'A' as int + 'a' as int) as char else c
  }

  /** Lower-cases every character of a string. */
  function Lower(s: string): (r: string)
  {
    seq(|s|, i requires 0 <= i < |s| => LowerChar(s[i]))
  }

  /** Lower-casing keeps the length and decides ^[a-zA-Z]+$ the same way. */
  lemma LowerKeepsAlphabetic(s: string)
    ensures |Lower(s)| == |s|
    ensures IsAlphabetic(Lower(s)) <==> IsAlphabetic(s)
    ensures IsAlphabetic(s) ==> forall i :: 0 <= i < |s| ==> IsLowerLetter(Lower(s)[i])
  {
    if IsAlphabetic(Lower(s)) {
      forall i | 0 <= i < |s| ensures IsAsciiLetter(s[i]) {
        assert IsAsciiLetter(Lower(s)[i]);
      }
    }
  }
}
