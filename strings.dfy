/** JavaScript's `String.prototype.toLowerCase`, restricted to ASCII letters. */
module Strings {

  predicate IsUpper(c: char) {
    'A' <= c <= 'Z'
  }

  /** The two characters are the same letter, disregarding ASCII case. */
  predicate SameLetterIgnoringCase(c: char, d: char) {
    c == d || (IsUpper(c) && d as int == c as int + 32) || (IsUpper(d) && c as int == d as int + 32)
  }

  /** `s` spells the word `w`, letter by letter, disregarding case. */
  predicate SpellsIgnoringCase(s: string, w: string) {
    |s| == |w| && forall i :: 0 <= i < |s| ==> SameLetterIgnoringCase(s[i], w[i])
  }

  function LowerChar(c: char): (d: char)
    ensures !IsUpper(d) && SameLetterIgnoringCase(c, d)
    ensures !IsUpper(c) ==> d == c
  {
    if IsUpper(c) then (c as int + 32) as char else c
  }

  /** `s.toLowerCase()`, character by character: no upper-case letter
      remains, letters change only in case, every other character is kept. */
  function ToLower(s: string): (r: string)
    ensures |r| == |s|
    ensures forall i :: 0 <= i < |s| ==> !IsUpper(r[i]) && SameLetterIgnoringCase(s[i], r[i])
    ensures forall i :: 0 <= i < |s| && !IsUpper(s[i]) ==> r[i] == s[i]
  {
    seq(|s|, i requires 0 <= i < |s| => LowerChar(s[i]))
  }

  /** A character lower-cases to `d` exactly when `d` is not upper-case and
      is the same letter, disregarding case. */
  lemma LowerCharEquals(c: char, d: char)
    ensures LowerChar(c) == d <==> !IsUpper(d) && SameLetterIgnoringCase(c, d)
  {
  }

  /** `s` lower-cases to `w` exactly when `w` has no upper-case letter and
      `s` spells `w` disregarding case. */
  lemma ToLowerEquals(s: string, w: string)
    ensures ToLower(s) == w <==> (forall i :: 0 <= i < |w| ==> !IsUpper(w[i])) && SpellsIgnoringCase(s, w)
  {
    if |s| == |w| {
      forall i | 0 <= i < |s| {
        LowerCharEquals(s[i], w[i]);
      }
    }
  }
}
