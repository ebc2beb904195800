/**
 * The `.env`-style reader behind `extract_config_env_vars`: each non-blank,
 * non-comment line holding `=` defines `key=value`, the value losing its
 * surrounding double quotes; a later definition of a key wins.
 */
module ConfigEnv {
  import opened Wrappers
  import opened Text
  import opened Dicts

  /** The variable a single line defines, if any. */
  function ParseLine(line: string): (r: Option<(string, string)>)
    ensures r.Some? ==> '=' !in r.value.0
    ensures r.Some? ==> var v := r.value.1; v == [] || (v[0] != '"' && v[|v| - 1] != '"')
  {
    var t := Strip(line, IsSpace);
    if t != [] && t[0] != '#' && '=' in t then
      var i := IndexOf(t, '=');
      Some((t[..i], Strip(t[i + 1..], IsQuote)))
    else
      None
  }

  /**
   * A line defines a variable exactly when, stripped of blanks, it is non-empty,
   * is not a comment and holds `=`; the key is then the text before the first
   * `=` and the value all the text after it, stripped of double quotes.
   */
  lemma ParseLineShape(line: string)
    ensures var t := Strip(line, IsSpace);
      ParseLine(line).Some? <==> (t != [] && t[0] != '#' && '=' in t)
    ensures ParseLine(line).Some? ==>
      var t := Strip(line, IsSpace);
      var (k, v) := ParseLine(line).value;
      '=' !in k && |k| < |t| && t == k + "=" + t[|k| + 1..] &&
      v == Strip(t[|k| + 1..], IsQuote)
  {
    var t := Strip(line, IsSpace);
    if t != [] && t[0] != '#' && '=' in t {
      var i := IndexOf(t, '=');
      assert t == t[..i] + "=" + t[i + 1..];
    }
  }

  /** The text of a definition line: `key=value`, or `key="value"` when quoted. */
  function DefinitionLine(key: string, value: string, quoted: bool): string
  {
    var q := if quoted then "\"" else "";
    key + "=" + (q + value + q)
  }

  /**
   * Reading a definition line gives back its key and value, provided the key
   * holds no `=` and does not begin the line with blank or `#`, and the value
   * neither begins nor ends with `"` (nor, unquoted, ends with a blank).
   */
  lemma {:induction false} ParseDefinitionLine(key: string, value: string, quoted: bool)
    requires '=' !in key
    requires key == [] || (!IsSpace(key[0]) && key[0] != '#')
    requires value == [] || (value[0] != '"' && value[|value| - 1] != '"')
    requires !quoted ==> value == [] || !IsSpace(value[|value| - 1])
    ensures ParseLine(DefinitionLine(key, value, quoted)) == Some((key, value))
  {
    var q := if quoted then "\"" else "";
    var rest := q + value + q;
    var line := key + "=" + rest;
    assert DefinitionLine(key, value, quoted) == line;
    assert rest == [] || !IsSpace(rest[|rest| - 1]) by {
      if quoted { assert rest[|rest| - 1] == '"'; }
      else { assert rest == value; }
    }
    DefinitionLineEnds(key, rest);
    StripNothing(line, IsSpace);
    StripMiddle(q, value, q, IsQuote);
    ParseKeyEqualsRest(key, rest);
  }

  lemma ParseKeyEqualsRest(key: string, rest: string)
    requires '=' !in key
    requires var line := key + "=" + rest; Strip(line, IsSpace) == line && line[0] != '#'
    ensures ParseLine(key + "=" + rest) == Some((key, Strip(rest, IsQuote)))
  {
    var line := key + "=" + rest;
    IndexOfAfter(key, '=', rest);
    assert line[..|key|] == key;
    assert line[|key| + 1..] == rest;
  }

  lemma DefinitionLineEnds(key: string, rest: string)
    requires key == [] || (!IsSpace(key[0]) && key[0] != '#')
    requires rest == [] || !IsSpace(rest[|rest| - 1])
    ensures var line := key + "=" + rest;
      line[0] != '#' && !IsSpace(line[0]) && !IsSpace(line[|line| - 1])
  {
    var line := key + "=" + rest;
    assert line[0] == if key == [] then '=' else key[0];
    assert rest != [] ==> line[|line| - 1] == rest[|rest| - 1];
  }

  /** The variables a sequence of lines defines, in first-definition order. */
  function ConfigEnvOf(lines: seq<string>): (d: Dict<string>)
    ensures d.Valid()
  {
    Collect(lines, ParseLine)
  }

  /** A key is defined exactly when some line defines it. */
  lemma ConfigEnvKeys(lines: seq<string>, key: string)
    ensures key in ConfigEnvOf(lines).values <==> exists i :: 0 <= i < |lines| && Yields(ParseLine, lines[i], key)
  {
    CollectKeys(lines, ParseLine, key);
  }

  /** A key's value is the one given by the last line that defines it. */
  lemma ConfigEnvLastWins(lines: seq<string>, i: nat)
    requires i < |lines| && ParseLine(lines[i]).Some?
    requires forall j :: i < j < |lines| ==> !Yields(ParseLine, lines[j], ParseLine(lines[i]).value.0)
    ensures var (k, v) := ParseLine(lines[i]).value;
      k in ConfigEnvOf(lines).values && ConfigEnvOf(lines).values[k] == v
  {
    CollectLastWins(lines, ParseLine, i);
  }
}
