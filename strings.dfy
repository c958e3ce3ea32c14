/**
 * The two string operations the title filter uses: `toLowerCase` and
 * `includes`. Lower-casing is modelled on the ASCII letters only.
 */
module Strings {

  /** `toLowerCase` on one character, restricted to `A`..`Z`. */
  function LowerChar(c: char): char {
    if 'A' <= c <= 'Z' then (c as int + 32) as char else c
  }

  /** `s.toLowerCase()`, applied character by character. */
  function Lower(s: string): string {
    seq(|s|, i requires 0 <= i < |s| => LowerChar(s[i]))
  }

  /** `pattern` sits in `text` starting at position `i`. */
  ghost predicate OccursAt(text: string, pattern: string, i: int) {
    0 <= i && i + |pattern| <= |text| && text[i..i + |pattern|] == pattern
  }

  /** `pattern` appears somewhere in `text`. */
  ghost predicate IsSubstring(pattern: string, text: string) {
    exists i :: OccursAt(text, pattern, i)
  }

  /** `text.includes(pattern)`: try each starting position from the left. */
  function Includes(text: string, pattern: string): bool
    decreases |text|
  {
    if |pattern| > |text| then false
    else if text[..|pattern|] == pattern then true
    else Includes(text[1..], pattern)
  }

  /** The scan finds a match exactly when the pattern occurs somewhere. */
  lemma {:induction false} IncludesIsSubstring(text: string, pattern: string)
    ensures Includes(text, pattern) <==> IsSubstring(pattern, text)
    decreases |text|
  {
    if |pattern| > |text| {
    } else if text[..|pattern|] == pattern {
      assert OccursAt(text, pattern, 0);
    } else {
      var rest := text[1..];
      IncludesIsSubstring(rest, pattern);
      if IsSubstring(pattern, rest) {
        var i :| OccursAt(rest, pattern, i);
        assert rest[i..i + |pattern|] == text[i + 1..i + 1 + |pattern|];
        assert OccursAt(text, pattern, i + 1);
      }
      if IsSubstring(pattern, text) {
        var i :| OccursAt(text, pattern, i);
        assert i != 0;
        assert rest[i - 1..i - 1 + |pattern|] == text[i..i + |pattern|];
        assert OccursAt(rest, pattern, i - 1);
      }
    }
  }

  /** The empty string is included in every string. */
  lemma EmptyIsIncluded(text: string)
    ensures Includes(text, "")
  {
  }

  /** Lower-casing both sides keeps an occurrence where it was. */
  lemma LowerKeepsOccurrence(text: string, pattern: string, i: int)
    requires OccursAt(text, pattern, i)
    ensures OccursAt(Lower(text), Lower(pattern), i)
  {
  }

  /** Lower-casing twice is lower-casing once. */
  lemma LowerIsIdempotent(s: string)
    ensures Lower(Lower(s)) == Lower(s)
  {
  }
}
