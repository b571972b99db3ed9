/**
 * The description normalisation of the cleaning step: Python's `str.strip()`
 * followed by `str.title()`. The data file is decoded as Latin-1, so every
 * character is in U+0000..U+00FF; over that range `IsSpace` is exactly the set
 * of characters `str.strip()` removes. Title-casing is modelled for the ASCII
 * letters only.
 */
module Text {

  /** Whitespace as Python's `str.isspace` sees it, restricted to Latin-1. */
  predicate IsSpace(c: char)
  {
    var n := c as int;
    (9 <= n <= 13) || (28 <= n <= 32) || n == 0x85 || n == 0xA0
  }

  predicate AllSpace(s: string)
  {
    forall i :: 0 <= i < |s| ==> IsSpace(s[i])
  }

  /** Neither the first nor the last character is whitespace. */
  predicate Trimmed(s: string)
  {
    s == [] || (!IsSpace(s[0]) && !IsSpace(s[|s| - 1]))
  }

  /** The number of leading whitespace characters. */
  function LeadingSpaces(s: string): (n: nat)
    ensures n <= |s| && AllSpace(s[..n])
    ensures n < |s| ==> !IsSpace(s[n])
  {
    if s == [] || !IsSpace(s[0]) then 0
    else
      var k := LeadingSpaces(s[1..]);
      assert s[..k + 1] == [s[0]] + s[1..][..k];
      k + 1
  }

  /** The number of trailing whitespace characters. */
  function TrailingSpaces(s: string): (n: nat)
    ensures n <= |s| && AllSpace(s[|s| - n..])
    ensures n < |s| ==> !IsSpace(s[|s| - 1 - n])
  {
    if s == [] || !IsSpace(s[|s| - 1]) then 0
    else
      var init := s[..|s| - 1];
      var k := TrailingSpaces(init);
      assert s[|s| - (k + 1)..] == init[|init| - k..] + [s[|s| - 1]];
      k + 1
  }

  /**
   * `str.strip()`: the result is a slice of `s` that is trimmed, and
   * everything cut away on either side is whitespace.
   */
  function Strip(s: string): (r: string)
    ensures Trimmed(r)
    ensures exists i, j :: 0 <= i <= j <= |s| && r == s[i..j] && AllSpace(s[..i]) && AllSpace(s[j..])
  {
    var i := LeadingSpaces(s);
    var rest := s[i..];
    var k := TrailingSpaces(rest);
    var j := |s| - k;
    assert rest[..|rest| - k] == s[i..j];
    assert rest[|rest| - k..] == s[j..];
    assert k < |rest| ==> rest[|rest| - 1 - k] == s[j - 1] && rest[0] == s[i];
    s[i..j]
  }

  /** Stripping a trimmed string changes nothing. */
  lemma StripTrimmed(s: string)
    requires Trimmed(s)
    ensures Strip(s) == s
  {
    assert LeadingSpaces(s) == 0;
    assert TrailingSpaces(s) == 0;
  }

  predicate IsUpper(c: char) { 'A' <= c <= 'Z' }
  predicate IsLower(c: char) { 'a' <= c <= 'z' }

  /** A character with case (Python's `is cased`), for ASCII letters. */
  predicate IsCased(c: char) { IsUpper(c) || IsLower(c) }

  function ToUpper(c: char): char
  {
    if IsLower(c) then (c as int - 32) as char else c
  }

  function ToLower(c: char): char
  {
    if IsUpper(c) then (c as int + 32) as char else c
  }

  /**
   * Python's title-casing loop: a character following a cased character is
   * lower-cased, any other is upper-cased; `prevCased` tells whether the
   * character before `s` was cased.
   */
  function TitleFrom(s: string, prevCased: bool): (r: string)
    ensures |r| == |s|
  {
    if s == [] then []
    else [if prevCased then ToLower(s[0]) else ToUpper(s[0])] + TitleFrom(s[1..], IsCased(s[0]))
  }

  /** `str.title()`. */
  function Title(s: string): string
  {
    TitleFrom(s, false)
  }

  /**
   * The character-by-character meaning of title-casing: each character is
   * lower-cased when the one before it is cased, and upper-cased otherwise
   * (in particular at the start of the string).
   */
  lemma {:induction false} TitleFromAt(s: string, prevCased: bool, i: nat)
    requires i < |s|
    ensures TitleFrom(s, prevCased)[i] ==
      if (if i == 0 then prevCased else IsCased(s[i - 1])) then ToLower(s[i]) else ToUpper(s[i])
  {
    if i > 0 {
      TitleFromAt(s[1..], IsCased(s[0]), i - 1);
      assert i - 1 == 0 || s[1..][i - 2] == s[i - 1];
    }
  }

  lemma TitleAt(s: string, i: nat)
    requires i < |s|
    ensures |Title(s)| == |s|
    ensures Title(s)[i] == if i > 0 && IsCased(s[i - 1]) then ToLower(s[i]) else ToUpper(s[i])
  {
    TitleFromAt(s, false, i);
  }

  /** Title-casing twice is title-casing once. */
  lemma TitleIdempotent(s: string)
    ensures Title(Title(s)) == Title(s)
  {
    var t := Title(s);
    forall i | 0 <= i < |s| ensures Title(t)[i] == t[i] {
      TitleAt(s, i);
      TitleAt(t, i);
      if i > 0 { TitleAt(s, i - 1); }
    }
  }

  /** Title-casing leaves whitespace where it was. */
  lemma TitleKeepsSpaces(s: string, i: nat)
    requires i < |s|
    ensures IsSpace(Title(s)[i]) == IsSpace(s[i])
  {
    TitleAt(s, i);
  }

  /** The description normalisation `s.strip().title()`. */
  function Normalize(s: string): string
  {
    Title(Strip(s))
  }

  /** Normalising a description twice is normalising it once. */
  lemma NormalizeIdempotent(s: string)
    ensures Normalize(Normalize(s)) == Normalize(s)
  {
    var t := Strip(s);
    var n := Title(t);
    if t != [] {
      TitleKeepsSpaces(t, 0);
      TitleKeepsSpaces(t, |t| - 1);
    }
    assert Trimmed(n);
    StripTrimmed(n);
    TitleIdempotent(t);
  }
}
