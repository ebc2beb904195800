/**
 * The label scanner behind `extract_docker_labels`: every match of
 * `LABEL\s+env\.(runtime|cicd)\.(\w+)='({.*?})'` in the Dockerfile, sorted
 * into a runtime and a cicd dictionary; a label whose JSON text does not
 * parse is reported instead of recorded.
 */
module DockerLabels {
  import opened Wrappers
  import opened Text
  import opened Dicts
  import opened Messages
  import opened Findall

  const Runtime: string := "runtime"
  const Cicd: string := "cicd"

  predicate IsPhase(phase: string)
  {
    phase == Runtime || phase == Cicd
  }

  /** One match: the phase, the variable name and the captured JSON text. */
  datatype LabelMatch = LabelMatch(phase: string, name: string, json: string)

  /** Text the lazy `.*?` may cross: no newline and no `}'` that would end it earlier. */
  predicate IsLazyBody(x: string)
  {
    x == [] ||
    (x[0] != '\n' && !(|x| >= 2 && x[0] == '}' && x[1] == '\'') && IsLazyBody(x[1..]))
  }

  /** What `({.*?})` captures: braces around a lazy body. */
  predicate IsLazyJson(json: string)
  {
    |json| >= 2 && json[0] == '{' && json[|json| - 1] == '}' && IsLazyBody(json[1..|json| - 1])
  }

  predicate IsBlank(ws: string)
  {
    |ws| > 0 && forall i :: 0 <= i < |ws| ==> IsSpace(ws[i])
  }

  /** The Dockerfile text `NAME='{...}'` of a label. */
  function NameJsonText(m: LabelMatch): string
  {
    m.name + ("='" + (m.json + "'"))
  }

  /** The Dockerfile text `env.PHASE.NAME='{...}'` of a label. */
  function TailText(m: LabelMatch): string
  {
    "env." + (m.phase + ("." + NameJsonText(m)))
  }

  /** The Dockerfile text of a label, `ws` being the blanks after `LABEL`. */
  function LabelText(ws: string, m: LabelMatch): string
  {
    "LABEL" + (ws + TailText(m))
  }

  predicate WellFormed(ws: string, m: LabelMatch)
  {
    IsBlank(ws) && IsPhase(m.phase) && IsWord(m.name) && IsLazyJson(m.json)
  }

  /** `.*?}'` after the opening brace: the length of the shortest newline-free text followed by `}'`. */
  function LazyClose(t: string): (r: Option<nat>)
    ensures r.Some? ==> r.value + 2 <= |t| && t[r.value] == '}' && t[r.value + 1] == '\''
  {
    if |t| < 2 then None
    else if t[0] == '}' && t[1] == '\'' then Some(0)
    else if t[0] == '\n' then None
    else
      match LazyClose(t[1..])
      case Some(k) => Some(k + 1)
      case None => None
  }

  /** The text the lazy `.*?` crossed is a lazy body. */
  lemma {:induction false} LazyCloseSound(t: string)
    requires LazyClose(t).Some?
    ensures IsLazyBody(t[..LazyClose(t).value])
  {
    var k := LazyClose(t).value;
    if k > 0 {
      LazyCloseSound(t[1..]);
      assert t[..k][1..] == t[1..][..k - 1];
    }
  }

  /** The lazy `.*?` stops at the first `}'` of the text. */
  lemma {:induction false} LazyCloseFinds(x: string, rest: string)
    requires IsLazyBody(x)
    ensures LazyClose(x + ("}'" + rest)) == Some(|x|)
  {
    var t := x + ("}'" + rest);
    if x != [] {
      assert t[1..] == x[1..] + ("}'" + rest);
      LazyCloseFinds(x[1..], rest);
      assert t[0] == x[0];
      assert t[1] == (if |x| > 1 then x[1] else '}');
    }
  }

  /** `({.*?})'` at the start of `t`: the length of the braced JSON text. */
  function LazyJson(t: string): (r: Option<nat>)
    ensures r.Some? ==> 2 <= r.value < |t| && t[r.value] == '\''
  {
    if t == [] || t[0] != '{' then None
    else
      match LazyClose(t[1..])
      case None => None
      case Some(k) => Some(k + 2)
  }

  /** What `({.*?})` captures is braces around a lazy body. */
  lemma LazyJsonSound(t: string)
    requires LazyJson(t).Some?
    ensures IsLazyJson(t[..LazyJson(t).value])
  {
    var k := LazyClose(t[1..]).value;
    LazyCloseSound(t[1..]);
    assert t[..k + 2][1..k + 1] == t[1..][..k];
  }

  /** The braced JSON text followed by `'` is captured whole. */
  lemma LazyJsonFinds(json: string, rest: string)
    requires IsLazyJson(json)
    ensures LazyJson(json + ("'" + rest)) == Some(|json|)
  {
    var t := json + ("'" + rest);
    var x := json[1..|json| - 1];
    assert t[1..] == x + ("}'" + rest);
    LazyCloseFinds(x, rest);
  }

  /** `w` starts with the text, of length `len`, of a well-formed `NAME='{...}'`. */
  predicate NameJsonAt(w: string, m: LabelMatch, len: int)
  {
    IsWord(m.name) && IsLazyJson(m.json) && len == |NameJsonText(m)| && NameJsonText(m) <= w
  }

  /** `t` starts with the text, of length `len`, of a well-formed `env.PHASE.NAME='{...}'`. */
  predicate TailAt(t: string, m: LabelMatch, len: int)
  {
    IsPhase(m.phase) && IsWord(m.name) && IsLazyJson(m.json) && len == |TailText(m)| && TailText(m) <= t
  }

  /** A match of the whole label pattern: the blanks after `LABEL` and the label. */
  datatype Found = Found(blanks: string, entry: LabelMatch)

  /** `s` starts with the text, of length `len`, of a well-formed label as `f` describes it. */
  predicate LabelAt(s: string, f: Found, len: int)
  {
    WellFormed(f.blanks, f.entry) && len == |LabelText(f.blanks, f.entry)| && LabelText(f.blanks, f.entry) <= s
  }

  /** The match of `(\w+)='({.*?})'` at the start of `w`, with its length. */
  function MatchNameJson(phase: string, w: string): (r: Option<(LabelMatch, int)>)
    ensures r.Some? ==> r.value.0.phase == phase && NameJsonAt(w, r.value.0, r.value.1)
  {
    var n := WordRun(w);
    if n == 0 || !StartsWith(w[n..], "='") then None
    else
      var t := w[n + 2..];
      match LazyJson(t)
      case None => None
      case Some(j) =>
        LazyJsonSound(t);
        NameJsonShape(w, n, j, phase);
        Some((LabelMatch(phase, w[..n], t[..j]), n + j + 3))
  }

  /** The phase named at the start of `u`, followed by a dot, or "" when neither is. */
  function PhaseAt(u: string): (phase: string)
    ensures phase != "" ==> IsPhase(phase) && |phase| < |u| && StartsWith(u, phase) && u[|phase|] == '.'
  {
    if StartsWith(u, Runtime) && |u| > |Runtime| && u[|Runtime|] == '.' then Runtime
    else if StartsWith(u, Cicd) && |u| > |Cicd| && u[|Cicd|] == '.' then Cicd
    else ""
  }

  /** The match of `env\.(runtime|cicd)\.(\w+)='({.*?})'` at the start of `t`, with its length. */
  function MatchLabelTail(t: string): (r: Option<(LabelMatch, int)>)
    ensures r.Some? ==> TailAt(t, r.value.0, r.value.1)
  {
    if !StartsWith(t, "env.") then None
    else
      var phase := PhaseAt(t[4..]);
      if phase == "" then None
      else
        match MatchNameJson(phase, t[|phase| + 5..])
        case None => None
        case Some((m, len)) =>
          TailShape(t, phase, m, len);
          Some((m, len + |phase| + 5))
  }

  /**
   * The match of the whole label pattern at the start of `s`, with its
   * length: whatever it matches is a well-formed label written out in the text.
   */
  function MatchLabel(s: string): (r: Option<(Found, int)>)
    ensures r.Some? ==> LabelAt(s, r.value.0, r.value.1)
  {
    if !StartsWith(s, "LABEL") then None
    else
      var n := SpaceRun(s[5..]);
      if n == 0 then None
      else
        match MatchLabelTail(s[5 + n..])
        case None => None
        case Some((m, len)) =>
          LabelShape(s, n, m, len);
          Some((Found(s[5..][..n], m), len + n + 5))
  }

  lemma NameJsonShape(w: string, n: nat, j: nat, phase: string)
    requires 0 < n && n + 2 <= |w| && forall i :: 0 <= i < n ==> IsWordChar(w[i])
    requires StartsWith(w[n..], "='") && j < |w[n + 2..]| && w[n + 2..][j] == '\''
    requires IsLazyJson(w[n + 2..][..j])
    ensures NameJsonAt(w, LabelMatch(phase, w[..n], w[n + 2..][..j]), n + j + 3)
  {
    var m := LabelMatch(phase, w[..n], w[n + 2..][..j]);
    var text := NameJsonText(m);
    assert IsWord(m.name) by {
      forall i | 0 <= i < n ensures IsWordChar(m.name[i]) {
        assert m.name[i] == w[i];
      }
    }
    forall i | 0 <= i < |text| ensures text[i] == w[i] {
      if i < n {
        assert text[i] == m.name[i];
      } else if i < n + 2 {
        assert w[i] == w[n..][..2][i - n];
      } else if i < n + 2 + j {
        assert text[i] == m.json[i - n - 2] == w[n + 2..][i - n - 2];
      } else {
        assert w[i] == w[n + 2..][j];
      }
    }
  }

  lemma TailShape(t: string, phase: string, m: LabelMatch, len: int)
    requires StartsWith(t, "env.") && |phase| + 5 <= |t| && m.phase == phase && IsPhase(phase)
    requires StartsWith(t[4..], phase) && t[4 + |phase|] == '.'
    requires NameJsonAt(t[|phase| + 5..], m, len)
    ensures TailAt(t, m, len + |phase| + 5)
  {
    var p := |phase|;
    var text := TailText(m);
    forall i | 0 <= i < |text| ensures text[i] == t[i] {
      if i < 4 {
        assert t[i] == t[..4][i];
      } else if i < 4 + p {
        assert text[i] == phase[i - 4] == t[4..][..p][i - 4];
      } else if i > 4 + p {
        assert text[i] == NameJsonText(m)[i - p - 5] == t[p + 5..][i - p - 5];
      }
    }
  }

  lemma LabelShape(s: string, n: nat, m: LabelMatch, len: int)
    requires StartsWith(s, "LABEL") && 0 < n && 5 + n <= |s|
    requires forall i :: 0 <= i < n ==> IsSpace(s[5..][i])
    requires TailAt(s[5 + n..], m, len)
    ensures LabelAt(s, Found(s[5..][..n], m), len + n + 5)
  {
    var ws := s[5..][..n];
    var text := LabelText(ws, m);
    assert IsBlank(ws) by {
      forall i | 0 <= i < n ensures IsSpace(ws[i]) {
        assert ws[i] == s[5..][i];
      }
    }
    forall i | 0 <= i < |text| ensures text[i] == s[i] {
      if i < 5 {
        assert s[i] == s[..5][i];
      } else if i < 5 + n {
        assert text[i] == ws[i - 5] == s[5..][i - 5];
      } else {
        assert text[i] == TailText(m)[i - n - 5] == s[5 + n..][i - n - 5];
      }
    }
  }

  /** A text starting with `runtime.` or `cicd.` names that phase. */
  lemma PhaseAtComplete(u: string, phase: string)
    requires IsPhase(phase) && |phase| < |u| && StartsWith(u, phase) && u[|phase|] == '.'
    ensures PhaseAt(u) == phase
  {
    assert u[0] == u[..|phase|][0] == phase[0];
  }

  /** A well-formed `NAME='{...}'` at the start of `w` is matched whole. */
  lemma NameJsonComplete(w: string, m: LabelMatch, len: int)
    requires NameJsonAt(w, m, len)
    ensures MatchNameJson(m.phase, w) == Some((m, len))
  {
    var n := |m.name|;
    var rest := w[len..];
    assert w == m.name + ("='" + (m.json + ("'" + rest)));
    WordRunOf(m.name, w[n..]);
    var t := w[n + 2..];
    assert t == m.json + ("'" + rest);
    LazyJsonFinds(m.json, rest);
    assert t[..|m.json|] == m.json;
  }

  /** A well-formed `env.PHASE.NAME='{...}'` at the start of `t` is matched whole. */
  lemma TailComplete(t: string, m: LabelMatch, len: int)
    requires TailAt(t, m, len)
    ensures MatchLabelTail(t) == Some((m, len))
  {
    var p := |m.phase|;
    var rest := t[len..];
    assert t == "env." + (m.phase + ("." + (NameJsonText(m) + rest)));
    PhaseAtComplete(t[4..], m.phase);
    assert t[p + 5..] == NameJsonText(m) + rest;
    NameJsonComplete(t[p + 5..], m, len - p - 5);
  }

  /**
   * A well-formed label at the start of `s` is matched whole: the greedy
   * `\s+` stops at the `e` of `env`, so the match is the label's own text.
   */
  lemma LabelComplete(s: string, f: Found, len: int)
    requires LabelAt(s, f, len)
    ensures MatchLabel(s) == Some((f, len))
  {
    var n := |f.blanks|;
    var rest := s[len..];
    var tail := TailText(f.entry) + rest;
    assert s == "LABEL" + (f.blanks + tail);
    assert s[5..] == f.blanks + tail;
    assert tail[0] == 'e';
    SpaceRunOf(f.blanks, tail);
    assert s[5..][..n] == f.blanks;
    assert s[5 + n..] == tail;
    TailComplete(tail, f.entry, len - n - 5);
  }

  /** `re.findall` of the label pattern over the Dockerfile text. */
  function FindLabels(s: string): seq<Found>
  {
    FindAll(s, MatchLabel)
  }

  /**
   * Every label the scan reports is written out, well-formed, somewhere in
   * the text; in particular its phase is `runtime` or `cicd`.
   */
  lemma FindLabelsSound(s: string, k: nat)
    requires k < |FindLabels(s)|
    ensures IsPhase(FindLabels(s)[k].entry.phase)
    ensures exists p, len :: 0 <= p <= |s| && LabelAt(s[p..], FindLabels(s)[k], len)
  {
    FindAllSound(s, MatchLabel, k);
  }

  /** The entry `labels[phase][name] = json` a match contributes, if its JSON text parses. */
  function PhaseEntry(phase: string, jsonValid: string -> bool, f: Found): Option<(string, string)>
  {
    if f.entry.phase == phase && jsonValid(f.entry.json) then Some((f.entry.name, f.entry.json)) else None
  }

  /**
   * The phase dictionaries `extract_docker_labels` builds from the matches:
   * the recorded value is the label's JSON text, standing for its parsed value.
   */
  function LabelsOf(fs: seq<Found>, jsonValid: string -> bool): (labels: map<string, Dict<string>>)
    ensures labels.Keys == {Runtime, Cicd}
  {
    map[Runtime := Collect(fs, f => PhaseEntry(Runtime, jsonValid, f)),
        Cicd := Collect(fs, f => PhaseEntry(Cicd, jsonValid, f))]
  }

  /** The error a match adds when its JSON text does not parse. */
  function JsonCheck(jsonValid: string -> bool, f: Found): seq<Message>
  {
    if jsonValid(f.entry.json) then [] else [InvalidLabelJson(f.entry.name)]
  }

  /** The errors `extract_docker_labels` reports: one per match whose JSON text does not parse, in order. */
  function LabelErrors(fs: seq<Found>, jsonValid: string -> bool): seq<Message>
  {
    Report(fs, f => JsonCheck(jsonValid, f))
  }

  /**
   * A variable is recorded under a phase exactly when some match names it
   * under that phase with JSON text that parses.
   */
  lemma LabelRecorded(fs: seq<Found>, jsonValid: string -> bool, phase: string, name: string)
    requires IsPhase(phase)
    ensures name in LabelsOf(fs, jsonValid)[phase].values <==>
      exists i :: 0 <= i < |fs| && fs[i].entry.phase == phase && fs[i].entry.name == name && jsonValid(fs[i].entry.json)
  {
    var entry := f => PhaseEntry(phase, jsonValid, f);
    CollectKeys(fs, entry, name);
    assert forall i :: 0 <= i < |fs| ==> (Yields(entry, fs[i], name) <==>
      fs[i].entry.phase == phase && fs[i].entry.name == name && jsonValid(fs[i].entry.json));
  }

  /**
   * The value recorded for a variable is the JSON text of the last match that
   * names it under that phase with JSON text that parses.
   */
  lemma LabelLastValidWins(fs: seq<Found>, jsonValid: string -> bool, i: nat)
    requires i < |fs| && jsonValid(fs[i].entry.json)
    requires forall j :: i < j < |fs| ==>
      !(fs[j].entry.phase == fs[i].entry.phase && fs[j].entry.name == fs[i].entry.name && jsonValid(fs[j].entry.json))
    ensures var f := fs[i].entry;
      IsPhase(f.phase) ==>
        f.name in LabelsOf(fs, jsonValid)[f.phase].values &&
        LabelsOf(fs, jsonValid)[f.phase].values[f.name] == f.json
  {
    var f := fs[i].entry;
    if IsPhase(f.phase) {
      var entry := g => PhaseEntry(f.phase, jsonValid, g);
      assert entry(fs[i]) == Some((f.name, f.json));
      CollectLastWins(fs, entry, i);
    }
  }

  /**
   * One more match: if its JSON text parses it is stored under its phase
   * (`labels[phase][name] = json`) and nothing is reported; otherwise exactly
   * one error naming its variable is reported and the dictionaries stay as
   * they were.
   */
  lemma LabelStep(fs: seq<Found>, jsonValid: string -> bool, f: Found)
    requires IsPhase(f.entry.phase)
    ensures var labels := LabelsOf(fs, jsonValid);
      var m := f.entry;
      if jsonValid(m.json) then
        LabelsOf(fs + [f], jsonValid) == labels[m.phase := labels[m.phase].Put(m.name, m.json)] &&
        LabelErrors(fs + [f], jsonValid) == LabelErrors(fs, jsonValid)
      else
        LabelsOf(fs + [f], jsonValid) == labels &&
        LabelErrors(fs + [f], jsonValid) == LabelErrors(fs, jsonValid) + [InvalidLabelJson(m.name)]
  {
    assert (fs + [f])[..|fs|] == fs;
    ReportStep(fs, f => JsonCheck(jsonValid, f), f);
  }

  /** `LabelStep` for the `i`-th match after the first `i`. */
  lemma LabelPrefixStep(fs: seq<Found>, jsonValid: string -> bool, i: nat)
    requires i < |fs| && IsPhase(fs[i].entry.phase)
    ensures var labels := LabelsOf(fs[..i], jsonValid);
      var m := fs[i].entry;
      if jsonValid(m.json) then
        LabelsOf(fs[..i + 1], jsonValid) == labels[m.phase := labels[m.phase].Put(m.name, m.json)] &&
        LabelErrors(fs[..i + 1], jsonValid) == LabelErrors(fs[..i], jsonValid)
      else
        LabelsOf(fs[..i + 1], jsonValid) == labels &&
        LabelErrors(fs[..i + 1], jsonValid) == LabelErrors(fs[..i], jsonValid) + [InvalidLabelJson(m.name)]
  {
    assert fs[..i + 1] == fs[..i] + [fs[i]];
    LabelStep(fs[..i], jsonValid, fs[i]);
  }

  /** The errors name exactly the variables of the matches whose JSON text does not parse. */
  lemma LabelErrorsNames(fs: seq<Found>, jsonValid: string -> bool, e: Message)
    ensures e in LabelErrors(fs, jsonValid) <==>
      exists i :: 0 <= i < |fs| && !jsonValid(fs[i].entry.json) && e == InvalidLabelJson(fs[i].entry.name)
  {
    ReportMembers(fs, f => JsonCheck(jsonValid, f), e);
  }

  /** A label at the start of the Dockerfile text is the first one found, and the scan resumes after it. */
  lemma FindLabelsAt(s: string, f: Found, len: int)
    requires LabelAt(s, f, len)
    ensures FindLabels(s) == [f] + FindLabels(s[len..])
  {
    LabelComplete(s, f, len);
    FindAllMatch(s, MatchLabel, f, len);
  }

  /** Where no label starts, the label pattern does not match. */
  lemma NoMatchBefore(s: string, p: nat)
    requires p <= |s|
    requires forall i, g, k :: 0 <= i < p ==> !LabelAt(s[i..], g, k)
    ensures forall i :: 0 <= i < p ==> MatchLabel(s[i..]).None?
  {
    forall i | 0 <= i < p
      ensures MatchLabel(s[i..]).None?
    {
      if MatchLabel(s[i..]).Some? {
        assert false;
      }
    }
  }

  /**
   * A label that no earlier label overlaps, in the sense that no label
   * starts before it, is the first one found.
   */
  lemma FindLabelsFirst(s: string, p: nat, f: Found, len: int)
    requires p <= |s| && LabelAt(s[p..], f, len)
    requires forall i, g, k :: 0 <= i < p ==> !LabelAt(s[i..], g, k)
    ensures FindLabels(s) == [f] + FindLabels(s[p + len..])
  {
    NoMatchBefore(s, p);
    LabelComplete(s[p..], f, len);
    FindAllFirst(s, MatchLabel, p, f, len);
  }
}
