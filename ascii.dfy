/** ASCII letter case, standing in for Python's `str.upper()` and
    `str.lower()` on country codes. Characters outside `a`-`z` and `A`-`Z`
    are left unchanged. */
module Ascii {

  predicate IsLowerLetter(c: char) {
    'a' <= c <= 'z'
  }

  predicate IsUpperLetter(c: char) {
    'A' <= c <= 'Z'
  }

  /** The upper-case form of one character. */
  function UpperChar(c: char): (u: char)
    ensures !IsLowerLetter(u)
    ensures !IsLowerLetter(c) ==> u == c
    ensures IsLowerLetter(c) ==> IsUpperLetter(u)
  {
    if IsLowerLetter(c) then (c as int - 32) as char else c
  }

  /** The lower-case form of one character. */
  function LowerChar(c: char): (l: char)
    ensures !IsUpperLetter(l)
    ensures !IsUpperLetter(c) ==> l == c
    ensures IsUpperLetter(c) ==> IsLowerLetter(l)
  {
    if IsUpperLetter(c) then (c as int + 32) as char else c
  }

  /** `s.upper()`: every character mapped by UpperChar, none dropped. */
  function Upper(s: string): (r: string)
    ensures |r| == |s|
    ensures forall i :: 0 <= i < |s| ==> r[i] == UpperChar(s[i])
    ensures forall i :: 0 <= i < |r| ==> !IsLowerLetter(r[i])
  {
    if s == [] then [] else [UpperChar(s[0])] + Upper(s[1..])
  }

  /** `s.lower()`: every character mapped by LowerChar, none dropped. */
  function Lower(s: string): (r: string)
    ensures |r| == |s|
    ensures forall i :: 0 <= i < |s| ==> r[i] == LowerChar(s[i])
    ensures forall i :: 0 <= i < |r| ==> !IsUpperLetter(r[i])
  {
    if s == [] then [] else [LowerChar(s[0])] + Lower(s[1..])
  }

  /** Two strings that differ at most in the case of their letters. */
  predicate EqualsIgnoringCase(s: string, t: string) {
    |s| == |t| && forall i :: 0 <= i < |s| ==> LowerChar(s[i]) == LowerChar(t[i])
  }

  /** A string with no lower-case letter, such as "GB" or "US". */
  predicate NoLowerLetter(t: string) {
    forall i :: 0 <= i < |t| ==> !IsLowerLetter(t[i])
  }

  lemma UpperCharMatches(x: char, y: char)
    requires !IsLowerLetter(y)
    ensures UpperChar(x) == y <==> LowerChar(x) == LowerChar(y)
  {
  }

  /** Comparing `s.upper()` with an upper-case constant is the same as
      comparing `s` with that constant in any letter case. */
  lemma UpperEqualsIffIgnoringCase(s: string, t: string)
    requires NoLowerLetter(t)
    ensures Upper(s) == t <==> EqualsIgnoringCase(s, t)
  {
    if EqualsIgnoringCase(s, t) {
      forall i | 0 <= i < |s|
        ensures Upper(s)[i] == t[i]
      {
        UpperCharMatches(s[i], t[i]);
      }
    }
    if Upper(s) == t {
      forall i | 0 <= i < |s|
        ensures LowerChar(s[i]) == LowerChar(t[i])
      {
        UpperCharMatches(s[i], t[i]);
      }
    }
  }

  /** `s.upper()` never equals a string holding a lower-case letter. */
  lemma UpperNeverHasLowerLetter(s: string, t: string)
    requires !NoLowerLetter(t)
    ensures Upper(s) != t
  {
  }

  /** Lower-casing first does not change the upper-case form: a country
      code stored lower-case uppercases to the same code again. */
  lemma UpperOfLower(s: string)
    ensures Upper(Lower(s)) == Upper(s)
  {
    forall i | 0 <= i < |s|
      ensures Upper(Lower(s))[i] == Upper(s)[i]
    {
      assert Lower(s)[i] == LowerChar(s[i]);
    }
  }

  /** Lower-casing keeps a string equal to itself up to case. */
  lemma LowerEqualsIgnoringCase(s: string)
    ensures EqualsIgnoringCase(Lower(s), s)
  {
  }
}
