/**
 * The few `System.String` operations the validators and the normaliser use:
 * `char.IsWhiteSpace`, `Trim`, `string.IsNullOrWhiteSpace` (on a non-null
 * string) and an ASCII-only `ToUpper`.
 */
module Strings {

  /** `char.IsWhiteSpace`: the Unicode space separators, U+0009..U+000D, U+0085, U+2028 and U+2029. */
  predicate IsWhiteSpace(c: char) {
    || c == ' '
    || ('\t' <= c <= '\r')
    || c == '\U{85}'
    || c == '\U{A0}'
    || c == '\U{1680}'
    || ('\U{2000}' <= c <= '\U{200A}')
    || c == '\U{2028}'
    || c == '\U{2029}'
    || c == '\U{202F}'
    || c == '\U{205F}'
    || c == '\U{3000}'
  }

  /** An ASCII decimal digit, the class `[0-9]`. */
  predicate IsDigit(c: char) {
    '0' <= c <= '9'
  }

  predicate AllDigits(s: string) {
    forall i | 0 <= i < |s| :: IsDigit(s[i])
  }

  /** An ASCII letter, the class `[A-Za-z]`. */
  predicate IsLetter(c: char) {
    ('A' <= c <= 'Z') || ('a' <= c <= 'z')
  }

  /** A non-null string for which `string.IsNullOrWhiteSpace` holds. */
  predicate IsBlank(s: string) {
    forall i | 0 <= i < |s| :: IsWhiteSpace(s[i])
  }

  /** Number of white-space characters `TrimStart` removes. */
  function LeadingWhiteSpace(s: string): (n: nat)
    ensures n <= |s|
    ensures IsBlank(s[..n])
    ensures n < |s| ==> !IsWhiteSpace(s[n])
  {
    if |s| > 0 && IsWhiteSpace(s[0]) then
      var n := 1 + LeadingWhiteSpace(s[1..]);
      assert s[1..][..n - 1] == s[1..n];
      n
    else 0
  }

  /** Number of white-space characters `TrimEnd` removes. */
  function TrailingWhiteSpace(s: string): (n: nat)
    ensures n <= |s|
    ensures IsBlank(s[|s| - n..])
    ensures n < |s| ==> !IsWhiteSpace(s[|s| - 1 - n])
  {
    if |s| > 0 && IsWhiteSpace(s[|s| - 1]) then
      var n := 1 + TrailingWhiteSpace(s[..|s| - 1]);
      assert s[..|s| - 1][|s| - n..] == s[|s| - n..|s| - 1];
      n
    else 0
  }

  /** `r` is the part of `s` starting at `i`, with only white space around it. */
  predicate MiddleAt(s: string, i: nat, r: string) {
    i + |r| <= |s| && r == s[i..i + |r|] && IsBlank(s[..i]) && IsBlank(s[i + |r|..])
  }

  /** `String.Trim()`: drops white space at both ends; TrimKeepsMiddle shows the rest is kept as it is. */
  function Trim(s: string): (r: string)
    ensures |r| <= |s|
    ensures |r| == 0 <==> IsBlank(s)
    ensures |r| > 0 ==> !IsWhiteSpace(r[0]) && !IsWhiteSpace(r[|r| - 1])
  {
    var t := s[LeadingWhiteSpace(s)..];
    t[..|t| - TrailingWhiteSpace(t)]
  }

  /** The trimmed string is the middle of `s`: only white space is cut off on either side. */
  lemma TrimKeepsMiddle(s: string)
    ensures exists i :: MiddleAt(s, i, Trim(s))
  {
    var n := LeadingWhiteSpace(s);
    var t := s[n..];
    var r := Trim(s);
    assert r == s[n..n + |r|];
    assert s[n + |r|..] == t[|t| - TrailingWhiteSpace(t)..];
    assert MiddleAt(s, n, r);
  }

  /** ASCII upper-casing of one character. */
  function UpperChar(c: char): char {
    if 'a' <= c <= 'z' then (c as int - 32) as char else c
  }

  /** `String.ToUpper()` restricted to ASCII letters. */
  function Upper(s: string): (r: string)
    ensures |r| == |s|
    ensures forall i | 0 <= i < |s| :: r[i] == UpperChar(s[i])
  {
    seq(|s|, i requires 0 <= i < |s| => UpperChar(s[i]))
  }

  /** The canonical form the normaliser stores: trimmed, then upper-cased. */
  function Normalise(s: string): string {
    Upper(Trim(s))
  }

  /** A string with no white space at either end is its own trim. */
  lemma {:induction false} TrimOfTrimmed(s: string)
    requires |s| > 0 ==> !IsWhiteSpace(s[0]) && !IsWhiteSpace(s[|s| - 1])
    ensures Trim(s) == s
  {
    assert LeadingWhiteSpace(s) == 0;
    assert TrailingWhiteSpace(s) == 0;
  }

  /** Trimming twice trims once. */
  lemma TrimIdempotent(s: string)
    ensures Trim(Trim(s)) == Trim(s)
  {
    TrimOfTrimmed(Trim(s));
  }

  /** Upper-casing neither creates nor removes white space. */
  lemma UpperKeepsWhiteSpace(c: char)
    ensures IsWhiteSpace(UpperChar(c)) <==> IsWhiteSpace(c)
  {
  }

  /** Upper-casing is idempotent. */
  lemma UpperIdempotent(s: string)
    ensures Upper(Upper(s)) == Upper(s)
  {
  }

  /**
   * The normalised form is a fixed point of normalisation: a trimmed string
   * stays trimmed once upper-cased, and upper-casing twice changes nothing.
   */
  lemma {:induction false} NormaliseIdempotent(s: string)
    ensures Normalise(Normalise(s)) == Normalise(s)
  {
    var t := Trim(s);
    var u := Upper(t);
    if |u| > 0 {
      UpperKeepsWhiteSpace(t[0]);
      UpperKeepsWhiteSpace(t[|t| - 1]);
    }
    TrimOfTrimmed(u);
    UpperIdempotent(t);
  }

  /** A normalised string is blank exactly when the raw string is. */
  lemma NormaliseBlank(s: string)
    ensures IsBlank(Normalise(s)) <==> IsBlank(s)
  {
  }
}
