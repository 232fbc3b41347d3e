/**
 * The part of JavaScript's string library the core relies on:
 * `String.prototype.trim`, which removes leading and trailing white space
 * and line terminators.
 */
module Strings {

  /**
   * The characters `trim` removes: the WhiteSpace and LineTerminator code
   * points of ECMAScript (tab, vertical tab, form feed, space, no-break
   * space, byte order mark, the space separators, and the four line
   * terminators).
   */
  predicate IsWhitespace(c: char)
  {
    || c == '\t' || c == '\n' || c == '\U{000B}' || c == '\U{000C}' || c == '\r'
    || c == ' ' || c == '\U{00A0}' || c == '\U{1680}'
    || ('\U{2000}' <= c <= '\U{200A}')
    || c == '\U{2028}' || c == '\U{2029}' || c == '\U{202F}' || c == '\U{205F}'
    || c == '\U{3000}' || c == '\U{FEFF}'
  }

  /** Every character of `s` is white space (the empty string included). */
  predicate IsBlank(s: string)
  {
    forall i :: 0 <= i < |s| ==> IsWhitespace(s[i])
  }

  /** Neither the first nor the last character of `s` is white space. */
  predicate IsTrimmed(s: string)
  {
    s == [] || (!IsWhitespace(s[0]) && !IsWhitespace(s[|s| - 1]))
  }

  /** A trimmed string that is not empty starts with a non-white character. */
  lemma TrimmedNonEmptyNotBlank(s: string)
    requires IsTrimmed(s) && s != []
    ensures !IsBlank(s)
  {
    assert !IsWhitespace(s[0]);
  }

  /** `s` without its leading white space. */
  function TrimStart(s: string): (r: string)
    ensures |r| <= |s| && r == s[|s| - |r|..]
    ensures IsBlank(s[..|s| - |r|])
    ensures r == [] || !IsWhitespace(r[0])
  {
    if s != [] && IsWhitespace(s[0]) then TrimStart(s[1..]) else s
  }

  /** `s` without its trailing white space. */
  function TrimEnd(s: string): (r: string)
    ensures |r| <= |s| && r == s[..|r|]
    ensures IsBlank(s[|r|..])
    ensures r == [] || !IsWhitespace(r[|r| - 1])
  {
    if s != [] && IsWhitespace(s[|s| - 1]) then TrimEnd(s[..|s| - 1]) else s
  }

  /** Leading white space is all there is exactly when the string is blank. */
  lemma TrimStartEmpty(s: string)
    ensures TrimStart(s) == [] <==> IsBlank(s)
  {
    var t := TrimStart(s);
    var i := |s| - |t|;
    if t != [] {
      assert s[i] == t[0];
    }
    if t == [] {
      assert s == s[..i];
    }
  }

  /** Trailing white space is all there is exactly when the string is blank. */
  lemma TrimEndEmpty(s: string)
    ensures TrimEnd(s) == [] <==> IsBlank(s)
  {
    var t := TrimEnd(s);
    if t != [] {
      assert s[|t| - 1] == t[|t| - 1];
    }
    if t == [] {
      assert s == s[|t|..];
    }
  }

  /**
   * `s.trim()`: the infix of `s` left once the white space at both ends is
   * removed. It is empty exactly when `s` is blank.
   */
  function Trim(s: string): (r: string)
    ensures IsTrimmed(r)
    ensures r == [] <==> IsBlank(s)
    ensures exists i, j :: 0 <= i <= j <= |s| && r == s[i..j] && IsBlank(s[..i]) && IsBlank(s[j..])
  {
    var t := TrimStart(s);
    var r := TrimEnd(t);
    TrimStartEmpty(s);
    TrimEndEmpty(t);
    assert r != [] ==> r[0] == t[0];
    TrimIsInfix(s);
    r
  }

  /** Trimming removes blank ends only: what is left is an infix of `s`. */
  lemma TrimIsInfix(s: string)
    ensures var r := TrimEnd(TrimStart(s));
      exists i, j :: 0 <= i <= j <= |s| && r == s[i..j] && IsBlank(s[..i]) && IsBlank(s[j..])
  {
    var t := TrimStart(s);
    BlankEndsInfix(s, t, TrimEnd(t));
  }

  /** Removing a blank prefix, then a blank suffix, leaves an infix between blank ends. */
  lemma BlankEndsInfix(s: string, t: string, r: string)
    requires |t| <= |s| && t == s[|s| - |t|..] && IsBlank(s[..|s| - |t|])
    requires |r| <= |t| && r == t[..|r|] && IsBlank(t[|r|..])
    ensures exists i, j :: 0 <= i <= j <= |s| && r == s[i..j] && IsBlank(s[..i]) && IsBlank(s[j..])
  {
    var i := |s| - |t|;
    var j := i + |r|;
    assert r == s[i..j];
    assert s[j..] == t[|r|..];
  }
}
