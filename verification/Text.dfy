/** Blank-string semantics of the `@NotBlank` constraint as Hibernate Validator
    implements it: a value is blank when it is null or when `String.trim()`
    leaves nothing. Java's `trim` strips every character whose code is at most
    U+0020 (space and all control characters) from both ends. */
module Text {
  import opened Wrappers

  /** A character that `String.trim()` strips from either end. */
  predicate IsTrimmed(c: char) {
    c <= ' '
  }

  /** `s` with its leading trimmable characters removed. */
  function TrimStart(s: string): (r: string)
    ensures |r| <= |s| && r == s[|s| - |r|..]
    ensures forall i | 0 <= i < |s| - |r| :: IsTrimmed(s[i])
    ensures |r| > 0 ==> !IsTrimmed(r[0])
  {
    if |s| > 0 && IsTrimmed(s[0]) then TrimStart(s[1..]) else s
  }

  /** `s` with its trailing trimmable characters removed. */
  function TrimEnd(s: string): (r: string)
    ensures |r| <= |s| && r == s[..|r|]
    ensures forall i | |r| <= i < |s| :: IsTrimmed(s[i])
    ensures |r| > 0 ==> !IsTrimmed(r[|r| - 1])
  {
    if |s| > 0 && IsTrimmed(s[|s| - 1]) then TrimEnd(s[..|s| - 1]) else s
  }

  /** Java's `String.trim()`. */
  function Trim(s: string): string {
    TrimEnd(TrimStart(s))
  }

  /** `@NotBlank`: present, and holding some character that is not
      whitespace or a control character. */
  predicate NotBlank(s: Option<string>) {
    s.Some? && HasVisibleChar(s.value)
  }

  /** Some character of `s` is one that `trim` keeps. */
  predicate HasVisibleChar(s: string) {
    exists i | 0 <= i < |s| :: !IsTrimmed(s[i])
  }

  /** Non-blankness agrees with the validator's own test, `trim()` leaving a
      non-empty string: trimming never empties a string that holds a kept
      character, and a string made only of trimmable characters trims to
      nothing. */
  lemma NotBlankIffTrimNonEmpty(s: string)
    ensures NotBlank(Some(s)) <==> |Trim(s)| > 0
  {
  }
}
