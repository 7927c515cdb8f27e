/** Letter case as the protocol's case-insensitive lookups need it: the ASCII letters,
    plus the one other character whose invariant-culture lower case is ASCII. */
module Ascii {

  predicate IsUpper(c: char) { 'A' <= c <= 'Z' }

  predicate IsLower(c: char) { 'a' <= c <= 'z' }

  /** U+212A KELVIN SIGN, whose invariant lower case is the ASCII letter 'k'. */
  const KelvinSign: char := '\U{212A}'

  /** Maps 'A'..'Z' to 'a'..'z' and the Kelvin sign to 'k'. Every other character is
      left alone: its invariant lower case, if it has one, is not ASCII either. */
  function ToLowerChar(c: char): (r: char)
    ensures !IsUpper(r)
    ensures IsUpper(c) ==> IsLower(r) && ToUpperChar(r) == c
    ensures c == KelvinSign ==> r == 'k'
    ensures !IsUpper(c) && c != KelvinSign ==> r == c
    ensures (r as int < 128) <==> (c as int < 128 || c == KelvinSign)
  {
    if IsUpper(c) then (c as int - 'A' as int + 'a' as int) as char
    else if c == KelvinSign then 'k'
    else c
  }

  /** Maps 'a'..'z' to 'A'..'Z' and leaves every other character alone. */
  function ToUpperChar(c: char): (r: char)
    ensures !IsLower(r)
    ensures IsLower(c) ==> IsUpper(r)
    ensures !IsLower(c) ==> r == c
  {
    if IsLower(c) then (c as int - 'a' as int + 'A' as int) as char else c
  }

  function ToLower(s: string): (r: string)
    ensures |r| == |s|
    ensures forall i :: 0 <= i < |s| ==> r[i] == ToLowerChar(s[i])
  {
    seq(|s|, i requires 0 <= i < |s| => ToLowerChar(s[i]))
  }

  function ToUpper(s: string): (r: string)
    ensures |r| == |s|
    ensures forall i :: 0 <= i < |s| ==> r[i] == ToUpperChar(s[i])
  {
    seq(|s|, i requires 0 <= i < |s| => ToUpperChar(s[i]))
  }

  /** Lower-casing is idempotent, so a name and its lower-cased form look up the same entry. */
  lemma ToLowerIdempotent(s: string)
    ensures ToLower(ToLower(s)) == ToLower(s)
  {
  }

  /** Two strings that differ only in the case of ASCII letters lower-case to the same string. */
  lemma ToLowerOfUpper(s: string)
    ensures ToLower(ToUpper(s)) == ToLower(s)
  {
    forall i | 0 <= i < |s|
      ensures ToLower(ToUpper(s))[i] == ToLower(s)[i]
    {
    }
  }
}
