/**
 * Character classes and string helpers used by the validator's parsers.
 * Python's Unicode-aware `str.isspace`, `\s`, `\w` and `str.isupper` are
 * restricted here to ASCII.
 */
module Text {

  /** ASCII whitespace as Python's `str.strip()` and the regex class `\s` see it. */
  predicate IsSpace(c: char)
  {
    c == ' ' || ('\t' <= c <= '\r') || ('\U{1C}' <= c <= '\U{1F}')
  }

  predicate IsQuote(c: char)
  {
    c == '"'
  }

  predicate IsLower(c: char)
  {
    'a' <= c <= 'z'
  }

  predicate IsUpper(c: char)
  {
    'A' <= c <= 'Z'
  }

  /** The regex class `\w`: letters, digits and underscore. */
  predicate IsWordChar(c: char)
  {
    IsLower(c) || IsUpper(c) || ('0' <= c <= '9') || c == '_'
  }

  /** What `(\w+)` captures: one or more word characters. */
  predicate IsWord(s: string)
  {
    |s| > 0 && forall i :: 0 <= i < |s| ==> IsWordChar(s[i])
  }

  /** Python's `str.isupper()`: at least one cased character, none of them lower-case. */
  predicate IsUpperCase(s: string)
  {
    (exists i :: 0 <= i < |s| && IsUpper(s[i])) && forall i :: 0 <= i < |s| ==> !IsLower(s[i])
  }

  predicate StartsWith(s: string, prefix: string)
  {
    |prefix| <= |s| && s[..|prefix|] == prefix
  }

  predicate EndsWith(s: string, suffix: string)
  {
    |suffix| <= |s| && s[|s| - |suffix|..] == suffix
  }

  /** Python's `sub in s` on strings. */
  predicate Contains(s: string, sub: string)
  {
    exists i :: 0 <= i <= |s| && StartsWith(s[i..], sub)
  }

  /** Length of the longest prefix of `s` whose characters all satisfy `p`. */
  function SpanLen(s: string, p: char -> bool): (n: nat)
    ensures n <= |s|
    ensures forall i :: 0 <= i < n ==> p(s[i])
    ensures n == |s| || !p(s[n])
  {
    if s != [] && p(s[0]) then 1 + SpanLen(s[1..], p) else 0
  }

  /** Length of the longest suffix of `s` whose characters all satisfy `p`. */
  function TrailLen(s: string, p: char -> bool): (n: nat)
    ensures n <= |s|
    ensures forall i :: |s| - n <= i < |s| ==> p(s[i])
    ensures n == |s| || !p(s[|s| - n - 1])
  {
    if s != [] && p(s[|s| - 1]) then 1 + TrailLen(s[..|s| - 1], p) else 0
  }

  /** Length of the run the greedy regex `\w*` matches at the start of `s`. */
  function WordRun(s: string): (n: nat)
    ensures n <= |s|
  {
    SpanLen(s, IsWordChar)
  }

  /** Length of the run the greedy regex `\s*` matches at the start of `s`. */
  function SpaceRun(s: string): (n: nat)
    ensures n <= |s|
  {
    SpanLen(s, IsSpace)
  }

  /** The word run stops where the word characters stop. */
  lemma WordRunOf(a: string, b: string)
    requires forall i :: 0 <= i < |a| ==> IsWordChar(a[i])
    requires b == [] || !IsWordChar(b[0])
    ensures WordRun(a + b) == |a|
  {
    assert forall i :: 0 <= i < |a| ==> IsWordChar((a + b)[i]);
    assert |a| < |a + b| ==> !IsWordChar((a + b)[|a|]);
  }

  /** The blank run stops where the blanks stop. */
  lemma SpaceRunOf(a: string, b: string)
    requires forall i :: 0 <= i < |a| ==> IsSpace(a[i])
    requires b == [] || !IsSpace(b[0])
    ensures SpaceRun(a + b) == |a|
  {
    assert forall i :: 0 <= i < |a| ==> IsSpace((a + b)[i]);
    assert |a| < |a + b| ==> !IsSpace((a + b)[|a|]);
  }

  /** Python's `s.strip(chars)`: drop every leading and trailing character satisfying `p`. */
  function Strip(s: string, p: char -> bool): (r: string)
    ensures |r| <= |s|
    ensures r == [] || (!p(r[0]) && !p(r[|r| - 1]))
  {
    var t := s[SpanLen(s, p)..];
    t[..|t| - TrailLen(t, p)]
  }

  /**
   * Strip returns exactly the middle of a string whose outer parts consist of
   * stripped characters and whose middle neither starts nor ends with one.
   */
  lemma {:induction false} StripMiddle(a: string, m: string, b: string, p: char -> bool)
    requires forall i :: 0 <= i < |a| ==> p(a[i])
    requires forall i :: 0 <= i < |b| ==> p(b[i])
    requires m == [] || (!p(m[0]) && !p(m[|m| - 1]))
    ensures Strip(a + m + b, p) == m
  {
    var s := a + m + b;
    var n := SpanLen(s, p);
    if m == [] {
      assert s == a + b;
      assert forall i :: 0 <= i < |s| ==> p(s[i]) by {
        forall i | 0 <= i < |s| ensures p(s[i]) {
          if i < |a| { assert s[i] == a[i]; } else { assert s[i] == b[i - |a|]; }
        }
      }
      assert n == |s|;
    } else {
      assert s[|a|] == m[0];
      assert n == |a|;
      var t := s[n..];
      assert t == m + b;
      var k := TrailLen(t, p);
      assert t[|t| - 1 - |b|] == m[|m| - 1];
      assert k == |b|;
      assert t[..|t| - k] == m;
    }
  }

  /** Strip leaves a string alone when neither end is to be stripped. */
  lemma StripNothing(s: string, p: char -> bool)
    requires s == [] || (!p(s[0]) && !p(s[|s| - 1]))
    ensures Strip(s, p) == s
  {
    StripMiddle([], s, [], p);
    assert [] + s + [] == s;
  }

  /** Index of the first `c` in `s`, or `|s|` when there is none. */
  function IndexOf(s: string, c: char): (r: nat)
    ensures r <= |s|
    ensures r < |s| ==> s[r] == c
    ensures forall i :: 0 <= i < r ==> s[i] != c
  {
    if s == [] then 0 else if s[0] == c then 0 else 1 + IndexOf(s[1..], c)
  }

  /** The first `c` of `a + [c] + b` is the one after `a` when `a` holds none. */
  lemma IndexOfAfter(a: string, c: char, b: string)
    requires c !in a
    ensures IndexOf(a + [c] + b, c) == |a|
  {
    var s := a + [c] + b;
    var i := IndexOf(s, c);
    assert s[|a|] == c;
  }
}
