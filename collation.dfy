/**
 * String comparison under the database's case-insensitive collation, as far as ASCII goes:
 * the columns compare text with upper-case letters folded to lower case.
 */
module Collation {

  /** ASCII upper-case letters become lower case; every other character is kept. */
  function FoldChar(c: char): (r: char)
    ensures 'A' <= c <= 'Z' ==> 'a' <= r <= 'z' && r as int - c as int == 32
    ensures !('A' <= c <= 'Z') ==> r == c
  {
    if 'A' <= c <= 'Z' then (c as int + 32) as char else c
  }

  /** The text as the collation compares it. */
  function Folded(s: string): (r: string)
    ensures |r| == |s|
    ensures forall i :: 0 <= i < |s| ==> r[i] == FoldChar(s[i])
  {
    seq(|s|, i requires 0 <= i < |s| => FoldChar(s[i]))
  }

  /** Equal under the collation. */
  predicate SameText(a: string, b: string) {
    Folded(a) == Folded(b)
  }

  /** Folding twice folds once, so comparing folded texts again changes nothing. */
  lemma FoldedTwice(s: string)
    ensures Folded(Folded(s)) == Folded(s)
  {}
}
