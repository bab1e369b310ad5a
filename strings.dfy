/** The parts of Go's `strings` package that the game relies on.
    Strings are sequences of runes; case mapping covers the ASCII letters only. */
module Strings {

  /** `unicode.ToLower` restricted to ASCII: 'A'..'Z' become 'a'..'z', every other rune is kept. */
  function LowerRune(c: char): (r: char)
    ensures 'A' <= c <= 'Z' ==> 'a' <= r <= 'z' && r as int - c as int == 32
    ensures !('A' <= c <= 'Z') ==> r == c
  {
    if 'A' <= c <= 'Z' then (c as int + 32) as char else c
  }

  /** `unicode.ToUpper` restricted to ASCII: 'a'..'z' become 'A'..'Z', every other rune is kept. */
  function UpperRune(c: char): (r: char)
    ensures 'a' <= c <= 'z' ==> 'A' <= r <= 'Z' && c as int - r as int == 32
    ensures !('a' <= c <= 'z') ==> r == c
  {
    if 'a' <= c <= 'z' then (c as int - 32) as char else c
  }

  /** `strings.ToLower`: maps every rune, so the length never changes; no upper-case letter
      is left, and the result agrees with `s` up to case. */
  function ToLower(s: string): (r: string)
    ensures |r| == |s|
    ensures forall i :: 0 <= i < |r| ==> !('A' <= r[i] <= 'Z')
    ensures forall i :: 0 <= i < |s| ==> UpperRune(r[i]) == UpperRune(s[i])
  {
    seq(|s|, i requires 0 <= i < |s| => LowerRune(s[i]))
  }

  /** `strings.ToUpper`: maps every rune, so the length never changes; no lower-case letter
      is left, and the result agrees with `s` up to case. */
  function ToUpper(s: string): (r: string)
    ensures |r| == |s|
    ensures forall i :: 0 <= i < |r| ==> !('a' <= r[i] <= 'z')
    ensures forall i :: 0 <= i < |s| ==> LowerRune(r[i]) == LowerRune(s[i])
  {
    seq(|s|, i requires 0 <= i < |s| => UpperRune(s[i]))
  }

  /** `substr` occurs in `s` starting at offset `i`. */
  predicate OccursAt(s: string, substr: string, i: int) {
    0 <= i <= |s| - |substr| && s[i..i + |substr|] == substr
  }

  /** `strings.Contains`: `substr` occurs in `s` at some offset. */
  predicate Contains(s: string, substr: string) {
    exists i | 0 <= i <= |s| - |substr| :: OccursAt(s, substr, i)
  }

  /** Every string contains the empty string, as in Go. */
  lemma ContainsEmpty(s: string)
    ensures Contains(s, "")
  {
    assert OccursAt(s, "", 0);
  }

  /** For a one-rune needle, `Contains` is membership of that rune. */
  lemma ContainsRune(s: string, c: char)
    ensures Contains(s, [c]) <==> c in s
  {
    if c in s {
      var i :| 0 <= i < |s| && s[i] == c;
      assert OccursAt(s, [c], i);
    }
    if Contains(s, [c]) {
      var i :| 0 <= i <= |s| - 1 && OccursAt(s, [c], i);
      assert s[i] == c;
    }
  }
}
