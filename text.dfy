/**
 * The character tests that the lemma filter applies to token text and
 * lemmas: `str.isdigit`, `str.isalnum` and `str.lower`, restricted to ASCII.
 */
module Text {

  predicate IsDigit(c: char) {
    '0' <= c <= '9'
  }

  predicate IsUpper(c: char) {
    'A' <= c <= 'Z'
  }

  predicate IsAlnum(c: char) {
    'a' <= c <= 'z' || IsUpper(c) || IsDigit(c)
  }

  /** `str.isdigit`: false on the empty string, otherwise every character is a digit. */
  predicate IsDigits(s: string)
    ensures s == [] ==> !IsDigits(s)
    ensures IsDigits(s) ==> HasAlnum(s) && IsLowerCase(s)
  {
    |s| > 0 && forall i :: 0 <= i < |s| ==> IsDigit(s[i])
  }

  /** `any(c.isalnum() for c in s)`. */
  predicate HasAlnum(s: string)
    ensures HasAlnum(s) ==> s != []
    ensures |s| > 0 && IsAlnum(s[0]) ==> HasAlnum(s)
  {
    exists i :: 0 <= i < |s| && IsAlnum(s[i])
  }

  /** No character of `s` is an upper-case letter. */
  predicate IsLowerCase(s: string) {
    forall i :: 0 <= i < |s| ==> !IsUpper(s[i])
  }

  /** The lower-case form of one character: an upper-case letter becomes the same letter in lower case. */
  function LowerChar(c: char): (r: char)
    ensures IsUpper(c) ==> 'a' <= r <= 'z' && r as int - 'a' as int == c as int - 'A' as int
    ensures !IsUpper(r)
    ensures IsAlnum(r) <==> IsAlnum(c)
    ensures !IsUpper(c) ==> r == c
  {
    if IsUpper(c) then (c as int + ('a' as int - 'A' as int)) as char else c
  }

  /** `str.lower`: maps each character to its lower-case form, keeping the length. */
  function Lower(s: string): (r: string)
    ensures |r| == |s|
    ensures forall i :: 0 <= i < |s| ==> r[i] == LowerChar(s[i])
    ensures IsLowerCase(r)
  {
    seq(|s|, i requires 0 <= i < |s| => LowerChar(s[i]))
  }

  /** Lower-casing neither creates nor removes alphanumeric characters. */
  lemma LowerKeepsAlnum(s: string)
    ensures HasAlnum(Lower(s)) <==> HasAlnum(s)
  {
  }
}
