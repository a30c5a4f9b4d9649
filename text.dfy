/**
  The string tests the user controller applies to request fields: JavaScript
  `length` (UTF-16 code units) and the email test `/\S+@\S+\.\S+/.test(email)`.
*/
module Text {

  /** The characters JavaScript's `\s` class matches. */
  predicate IsJsWhitespace(c: char) {
    c == ' ' || c == '\t' || c == '\n' || c == '\r' || c == '\U{000B}' || c == '\U{000C}'
    || c == '\U{00A0}' || c == '\U{1680}' || ('\U{2000}' <= c <= '\U{200A}')
    || c == '\U{2028}' || c == '\U{2029}' || c == '\U{202F}' || c == '\U{205F}'
    || c == '\U{3000}' || c == '\U{FEFF}'
  }

  /** `\S`: any character `\s` does not match. */
  predicate NonSpace(c: char) {
    !IsJsWhitespace(c)
  }

  /**
    JavaScript's `s.length`: characters outside the Basic Multilingual Plane
    take two UTF-16 code units.
  */
  function Utf16Length(s: string): (n: nat)
    ensures |s| <= n <= 2 * |s|
  {
    if s == [] then 0
    else (if s[0] as int > 0xFFFF then 2 else 1) + Utf16Length(s[1..])
  }

  /** Text made only of Basic Multilingual Plane characters has one code unit per character. */
  lemma {:induction false} Utf16LengthOfBmpText(s: string)
    requires forall i | 0 <= i < |s| :: s[i] as int <= 0xFFFF
    ensures Utf16Length(s) == |s|
  {
    if s != [] {
      Utf16LengthOfBmpText(s[1..]);
    }
  }

  /** Every character of `s[lo..hi]` is a `\S` character. */
  predicate AllNonSpace(s: string, lo: int, hi: int)
    requires 0 <= lo <= hi <= |s|
  {
    forall k | lo <= k < hi :: NonSpace(s[k])
  }

  /**
    `s` contains a match of `\S+@\S+\.\S+` whose `@` is at `at` and whose
    `\.` is at `dot`: a `\S` just before the `@`, a non-empty run of `\S`
    between the `@` and the dot, and a `\S` just after the dot. A longer
    first or last run adds nothing, since one character satisfies `\S+`.
  */
  predicate EmailMatchAt(s: string, at: int, dot: int) {
    && 1 <= at && at + 2 <= dot && dot + 2 <= |s|
    && s[at] == '@' && s[dot] == '.'
    && NonSpace(s[at - 1]) && NonSpace(s[dot + 1])
    && AllNonSpace(s, at + 1, dot)
  }

  /** `/\S+@\S+\.\S+/.test(s)`: the pattern is not anchored, so a match anywhere counts. */
  predicate EmailPattern(s: string) {
    exists at, dot | 0 <= at < dot < |s| :: EmailMatchAt(s, at, dot)
  }

  /** Text around an accepted address never makes the test fail. */
  lemma EmailPatternUnanchored(before: string, s: string, after: string)
    requires EmailPattern(s)
    ensures EmailPattern(before + s + after)
  {
    var at, dot :| 0 <= at < dot < |s| && EmailMatchAt(s, at, dot);
    var t := before + s + after;
    var n := |before|;
    forall k | 0 <= k < |s|
      ensures t[n + k] == s[k]
    {
    }
    assert AllNonSpace(t, n + at + 1, n + dot) by {
      forall k | n + at + 1 <= k < n + dot
        ensures NonSpace(t[k])
      {
        assert t[k] == s[k - n];
      }
    }
    assert EmailMatchAt(t, n + at, n + dot);
  }

  /** An accepted address holds an `@` followed, later, by a dot. */
  lemma EmailPatternNeedsAtThenDot(s: string)
    requires EmailPattern(s)
    ensures exists i, j :: 0 <= i < j < |s| && s[i] == '@' && s[j] == '.'
  {
    var at, dot :| 0 <= at < dot < |s| && EmailMatchAt(s, at, dot);
    assert s[at] == '@' && s[dot] == '.';
  }

  /** Whitespace inside the address is accepted when a match lies elsewhere: `"a b@c.d"`. */
  lemma EmailPatternAcceptsSpaces()
    ensures EmailPattern("a b@c.d")
  {
    assert EmailMatchAt("a b@c.d", 3, 5);
  }

  /** Without a character between `@` and the dot there is no match: `"a@.b"`. */
  lemma EmailPatternRejectsEmptyDomain()
    ensures !EmailPattern("a@.b")
  {
  }
}
