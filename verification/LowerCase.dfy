// Lower-casing as the standard library does it, with the table a parameter.
module LowerCase {

  /** Lower-casing, a character at a time. */
  function Lower(lower: char -> char, s: string): (r: string)
    ensures |r| == |s| && forall i :: 0 <= i < |s| ==> r[i] == lower(s[i])
  {
    seq(|s|, i requires 0 <= i < |s| => lower(s[i]))
  }
}
