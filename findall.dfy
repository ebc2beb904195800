/**
 * Python's `re.findall`, which reports non-overlapping matches: the pattern
 * is tried at each position from left to right, and after a match the
 * search resumes where that match ended, so a match that would start
 * inside an earlier one is never tried.
 */
module Findall {
  import opened Wrappers

  /** A matcher gives the match at the start of a text, if any, with its length, which is positive. */
  ghost predicate IsMatcher<T>(matcher: string -> Option<(T, int)>)
  {
    forall t :: matcher(t).Some? ==> 0 < matcher(t).value.1 <= |t|
  }

  /** The matches of a left-to-right scan; each consumes at least one character. */
  function FindAll<T>(s: string, matcher: string -> Option<(T, int)>): (r: seq<T>)
    requires IsMatcher(matcher)
    ensures |r| <= |s|
    decreases |s|
  {
    if s == [] then []
    else
      match matcher(s)
      case Some((x, len)) => [x] + FindAll(s[len..], matcher)
      case None => FindAll(s[1..], matcher)
  }

  /** Every reported match is the matcher's match at some position of the text. */
  lemma {:induction false} FindAllSound<T>(s: string, matcher: string -> Option<(T, int)>, k: nat)
    requires IsMatcher(matcher) && k < |FindAll(s, matcher)|
    ensures exists p :: 0 <= p <= |s| && matcher(s[p..]).Some? && matcher(s[p..]).value.0 == FindAll(s, matcher)[k]
    decreases |s|
  {
    if s != [] {
      match matcher(s)
      case Some((x, len)) =>
        if k == 0 {
          assert s[0..] == s;
        } else {
          var rest := s[len..];
          FindAllSound(rest, matcher, k - 1);
          var p :| 0 <= p <= |rest| && matcher(rest[p..]).Some? && matcher(rest[p..]).value.0 == FindAll(rest, matcher)[k - 1];
          assert rest[p..] == s[len + p..];
        }
      case None =>
        var rest := s[1..];
        FindAllSound(rest, matcher, k);
        var p :| 0 <= p <= |rest| && matcher(rest[p..]).Some? && matcher(rest[p..]).value.0 == FindAll(rest, matcher)[k];
        assert rest[p..] == s[1 + p..];
    }
  }

  /** A match at the start of the text is reported first, and the scan resumes after it. */
  lemma FindAllMatch<T>(s: string, matcher: string -> Option<(T, int)>, x: T, len: int)
    requires IsMatcher(matcher) && matcher(s) == Some((x, len))
    ensures FindAll(s, matcher) == [x] + FindAll(s[len..], matcher)
  {
    assert 0 < len <= |s|;
  }

  /** Positions at which no match starts are passed over. */
  lemma {:induction false} FindAllSkip<T>(s: string, matcher: string -> Option<(T, int)>, p: nat)
    requires IsMatcher(matcher) && p <= |s|
    requires forall i :: 0 <= i < p ==> matcher(s[i..]).None?
    ensures FindAll(s, matcher) == FindAll(s[p..], matcher)
    decreases p
  {
    if p > 0 {
      assert s[0..] == s;
      forall i | 0 <= i < p - 1
        ensures matcher(s[1..][i..]).None?
      {
        assert s[1..][i..] == s[i + 1..];
      }
      FindAllSkip(s[1..], matcher, p - 1);
      assert s[1..][p - 1..] == s[p..];
    }
  }

  /** The first match found is the one at the first position where the matcher succeeds. */
  lemma FindAllFirst<T>(s: string, matcher: string -> Option<(T, int)>, p: nat, x: T, len: int)
    requires IsMatcher(matcher) && p <= |s|
    requires forall i :: 0 <= i < p ==> matcher(s[i..]).None?
    requires matcher(s[p..]) == Some((x, len))
    ensures FindAll(s, matcher) == [x] + FindAll(s[p + len..], matcher)
  {
    FindAllSkip(s, matcher, p);
    FindAllMatch(s[p..], matcher, x, len);
    assert s[p..][len..] == s[p + len..];
  }
}
