/**
 * The `${NAME}` scanner behind `extract_mxcp_config_vars`: every match of
 * the regular expression `\$\{(\w+)\}` in the user configuration, keeping
 * the upper-case names, each once.
 */
module MxcpRefs {
  import opened Wrappers
  import opened Text
  import opened Dicts

  /** The text `${name}` starts at position `p` of `s`. */
  predicate RefAt(s: string, p: nat, name: string)
  {
    p <= |s| && IsWord(name) && StartsWith(s[p..], "${" + name + "}")
  }

  /** The match of `\$\{(\w+)\}` at the start of `s`, if any. */
  function MatchRef(s: string): Option<string>
  {
    if |s| >= 2 && s[0] == '$' && s[1] == '{' then
      var n := WordRun(s[2..]);
      if n > 0 && 2 + n < |s| && s[2 + n] == '}' then Some(s[2..2 + n]) else None
    else
      None
  }

  /** The scanner matches `${name}` at the start of `s` exactly when it is there. */
  lemma MatchRefSpec(s: string)
    ensures forall name :: RefAt(s, 0, name) <==> MatchRef(s) == Some(name)
  {
    if MatchRef(s).Some? {
      var name := MatchRef(s).value;
      assert IsWord(name);
      assert s[..|name| + 3] == "${" + name + "}";
      assert RefAt(s, 0, name);
    }
    forall name | RefAt(s, 0, name) ensures MatchRef(s) == Some(name) {
      RefAtLongestWord(s);
    }
  }

  /**
   * A name after `${` is the longest run of word characters there, since the
   * closing brace is not a word character.
   */
  lemma RefAtLongestWord(s: string)
    ensures forall name :: RefAt(s, 0, name) ==>
      |s| >= 2 && s[0] == '$' && s[1] == '{' &&
      |name| == WordRun(s[2..]) && 2 + |name| < |s| &&
      name == s[2..2 + |name|] && s[2 + |name|] == '}'
  {
    forall name | RefAt(s, 0, name)
      ensures |s| >= 2 && s[0] == '$' && s[1] == '{'
      ensures |name| == WordRun(s[2..]) && 2 + |name| < |s|
      ensures name == s[2..2 + |name|] && s[2 + |name|] == '}'
    {
      var n := WordRun(s[2..]);
      assert s[..|name| + 3] == "${" + name + "}";
      assert s[2..][..|name|] == name;
      assert s[2..][|name|] == '}';
    }
  }

  /** `re.findall`: scan left to right, resuming after each match. */
  function FindRefs(s: string): (refs: seq<string>)
    ensures forall i :: 0 <= i < |refs| ==> IsWord(refs[i])
    decreases |s|
  {
    if s == [] then []
    else
      match MatchRef(s)
      case Some(name) =>
        [name] + FindRefs(s[|name| + 3..])
      case None => FindRefs(s[1..])
  }

  lemma RefAtShift(s: string, k: nat, p: nat, name: string)
    requires k <= |s| && RefAt(s[k..], p, name)
    ensures RefAt(s, k + p, name)
  {
    assert s[k..][p..] == s[k + p..];
  }

  /** Every name found stands in the text as `${name}`. */
  lemma {:induction false} FindRefsSound(s: string, name: string)
    requires name in FindRefs(s)
    ensures exists p :: RefAt(s, p, name)
    decreases |s|
  {
    MatchRefSpec(s);
    match MatchRef(s)
    case Some(n) =>
      if name == n {
        assert RefAt(s, 0, name);
      } else {
        var k := |n| + 3;
        FindRefsSound(s[k..], name);
        var p :| RefAt(s[k..], p, name);
        RefAtShift(s, k, p, name);
      }
    case None =>
      FindRefsSound(s[1..], name);
      var p :| RefAt(s[1..], p, name);
      RefAtShift(s, 1, p, name);
  }

  /** Every `${name}` in the text is found: matches never overlap one another. */
  lemma {:induction false} FindRefsComplete(s: string, p: nat, name: string)
    requires RefAt(s, p, name)
    ensures name in FindRefs(s)
    decreases |s|
  {
    MatchRefSpec(s);
    match MatchRef(s)
    case Some(n) =>
      if p != 0 {
        var k := |n| + 3;
        assert RefAt(s, 0, n);
        assert s[p] == '$';
        assert s[..k] == "${" + n + "}";
        assert p >= k;
        assert s[k..][p - k..] == s[p..];
        FindRefsComplete(s[k..], p - k, name);
      }
    case None =>
      assert p != 0;
      assert s[1..][p - 1..] == s[p..];
      FindRefsComplete(s[1..], p - 1, name);
  }

  /** The comprehension's filter: no `{{` prefix, no `}}` suffix, and `isupper()`. */
  predicate IsUserVar(v: string)
  {
    !StartsWith(v, "{{") && !EndsWith(v, "}}") && IsUpperCase(v)
  }

  /**
   * The placeholder part of the filter never rejects anything: a name made of
   * word characters cannot begin or end with a brace.
   */
  lemma PlaceholderFilterVacuous(v: string)
    requires IsWord(v)
    ensures IsUserVar(v) <==> IsUpperCase(v)
  {
    if StartsWith(v, "{{") {
      assert v[0] == '{' && IsWordChar(v[0]);
    }
    if EndsWith(v, "}}") {
      assert v[|v| - 1] == '}' && IsWordChar(v[|v| - 1]);
    }
  }

  /** The comprehension of `extract_mxcp_config_vars`: the captured names that pass the filter, in order. */
  function KeepUserVars(refs: seq<string>): (kept: seq<string>)
    ensures |kept| <= |refs|
    ensures forall i :: 0 <= i < |kept| ==> IsUserVar(kept[i])
  {
    if refs == [] then []
    else (if IsUserVar(refs[0]) then [refs[0]] else []) + KeepUserVars(refs[1..])
  }

  lemma {:induction false} KeepUserVarsMembers(refs: seq<string>, v: string)
    ensures v in KeepUserVars(refs) <==> v in refs && IsUserVar(v)
  {
    if refs != [] {
      KeepUserVarsMembers(refs[1..], v);
      assert refs == [refs[0]] + refs[1..];
    }
  }

  /** `list(set(xs))`: the same elements, each once (in order of first appearance). */
  function Dedup(xs: seq<string>): (r: seq<string>)
    ensures NoDuplicates(r)
    ensures forall x :: x in r <==> x in xs
  {
    if xs == [] then []
    else
      var d := Dedup(xs[..|xs| - 1]);
      assert xs == xs[..|xs| - 1] + [xs[|xs| - 1]];
      if xs[|xs| - 1] in d then d else d + [xs[|xs| - 1]]
  }

  /** `extract_mxcp_config_vars` on the text of the user configuration. */
  function MxcpConfigVars(content: string): (vars: seq<string>)
    ensures NoDuplicates(vars)
  {
    Dedup(KeepUserVars(FindRefs(content)))
  }

  /**
   * A name is returned exactly when `${name}` occurs in the text and the name
   * is upper-case in the sense of `str.isupper`.
   */
  lemma MxcpConfigVarsSpec(content: string, name: string)
    ensures name in MxcpConfigVars(content) <==> (exists p :: RefAt(content, p, name)) && IsUpperCase(name)
  {
    var refs := FindRefs(content);
    KeepUserVarsMembers(refs, name);
    if name in refs {
      FindRefsSound(content, name);
      PlaceholderFilterVacuous(name);
    }
    if exists p :: RefAt(content, p, name) {
      var p :| RefAt(content, p, name);
      FindRefsComplete(content, p, name);
      PlaceholderFilterVacuous(name);
    }
  }
}
