/**
 * Making the request timestamp safe for a file name: every `:` and `.` of
 * the ISO-8601 string becomes `-` (the global regular-expression replace of
 * `[:.]` by `-`).
 */
module Timestamp {

  /** The characters the replace pattern `[:.]` matches. */
  predicate Forbidden(c: char) {
    c == ':' || c == '.'
  }

  /** A string with none of the forbidden characters. */
  predicate IsSafe(s: string) {
    forall i :: 0 <= i < |s| ==> !Forbidden(s[i])
  }

  /** The replacement applied at a single position. */
  function SafeChar(c: char): char {
    if Forbidden(c) then '-' else c
  }

  /**
   * The sanitised timestamp: the same length, every forbidden character
   * replaced by `-`, every other character left where it was, and no
   * forbidden character left.
   */
  function Sanitize(s: string): (r: string)
    ensures |r| == |s|
    ensures forall i :: 0 <= i < |s| ==> (if Forbidden(s[i]) then r[i] == '-' else r[i] == s[i])
    ensures IsSafe(r)
  {
    if s == [] then [] else [SafeChar(s[0])] + Sanitize(s[1..])
  }

  /** Sanitising twice is sanitising once. */
  lemma SanitizeIdempotent(s: string)
    ensures Sanitize(Sanitize(s)) == Sanitize(s)
  {
  }

  /** Sanitising leaves a string unchanged exactly when it was already safe. */
  lemma SanitizeFixedPoints(s: string)
    ensures Sanitize(s) == s <==> IsSafe(s)
  {
  }

  /** Sanitising works character by character, so it distributes over concatenation. */
  lemma SanitizeAppend(a: string, b: string)
    ensures Sanitize(a + b) == Sanitize(a) + Sanitize(b)
  {
  }
}
