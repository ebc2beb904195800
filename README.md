# Environment-variable consistency validator

This project models `EnvValidator`, the deployment template's consistency checker, in Dafny. `EnvValidator` reads four inputs:

- the Dockerfile's `LABEL env.<runtime|cicd>.<NAME>='{...}'` declarations;
- the `${NAME}` references in the MXCP user configuration;
- the `KEY=value` lines of `config.env`;
- the `env:` block of the deployment workflow.

It cross-checks them. Along the way it appends messages to two lists it owns, `errors` and `warnings`. Its exit code is 1 exactly when there is an error.

The model is split into modules:

- `Text`: the ASCII character classes and string helpers that Python's `str.strip`, `\s`, `\w` and `str.isupper` stand for here.
- `Dicts`: a Python `dict` with string keys. It is a map plus the order of first insertion, which is the order a `for` loop visits the keys. Rebinding a key keeps its place.
- `Findall`: `re.findall` for one pattern, given as a matcher at the start of a text. The pattern is tried at each position from left to right, and after a match the search resumes where that match ended.
- `ConfigEnv`: the `config.env` line reader.
- `MxcpRefs`: the `${NAME}` scanner, its `isupper` filter and the deduplication.
- `DockerLabels`: the label scanner, including the lazy `{.*?}'` capture. It also builds the two phase dictionaries and the JSON errors.
- `Messages`: the messages the validator appends, with their exact texts. It also holds `Report`, the messages a loop appends when it runs one check on each element of a list in order.
- `Rules`: the four checks of `validate` and the exit code, as functions of the extracted data.
- `Validator`: the class `EnvValidator`.
  - Its fields `errors` and `warnings` are updated in place by methods that loop like the source does.
  - Each method is proved against the specification functions of `Rules`, `DockerLabels` and `ConfigEnv`.

## Model

| member | source | states |
|---|---|---|
| Text.Strip | deployment/env-validator.py:67 | the stripped text is no longer than the input, and neither of its ends is a stripped character |
| Text.StripMiddle | deployment/env-validator.py:70 | stripping a text made of stripped characters, then a middle whose ends are not stripped characters, then more stripped characters gives exactly the middle |
| Text.IndexOf | deployment/env-validator.py:69 | the index of the first occurrence of a character, or the length when it does not occur: no earlier position holds it |
| Text.SpanLen | deployment/env-validator.py:57 | the longest prefix of characters of a class, which is what the greedy `\w+` and `\s+` and the leading part of `strip` take: all its characters are in the class, and it ends at the end of the text or at a character outside the class. WordRun and SpaceRun are this run for `\w` and `\s` |
| Text.TrailLen | deployment/env-validator.py:70 | the longest suffix of characters of a class, which is the trailing part `strip` removes: all its characters are in the class, and it starts at the start of the text or after a character outside the class |
| Dicts.Dict.Put | deployment/env-validator.py:70 | `d[k] = v` maps k to v; a new key goes last in iteration order, an existing key keeps its place; each key stays listed once |
| Dicts.CollectKeys | deployment/env-validator.py:64-71 | a key is in the dictionary built by a loop exactly when some element of the loop yields it |
| Dicts.CollectLastWins | deployment/env-validator.py:64-71 | a key's value is the one given by the last element that yields the key |
| ConfigEnv.ParseLine | deployment/env-validator.py:67-70 | the key it reads contains no `=`, and the value neither starts nor ends with `"`; ParseLineShape states exactly when a line defines a variable and what it defines |
| ConfigEnv.ParseLineShape | deployment/env-validator.py:67-70 | a line defines a variable exactly when, after stripping blanks, it is non-empty, does not start with `#` and contains `=`; the key is the text before the first `=` and contains no `=`; the value is the rest of the line, which may contain more `=`, with leading and trailing `"` stripped |
| ConfigEnv.ParseDefinitionLine | deployment/env-validator.py:67-70 | reading the line `key=value` or `key="value"` gives back the key and the value, for any key without `=` that does not start with a blank or `#`, and any value that neither starts nor ends with `"` and, when unquoted, does not end with a blank (the line's `strip()` would remove it) |
| ConfigEnv.ConfigEnvOf | deployment/env-validator.py:64-71 | the variables read from the file form a well-formed dictionary, with each key listed once |
| ConfigEnv.ConfigEnvKeys | deployment/env-validator.py:68-70 | a key is defined exactly when some line defines it |
| ConfigEnv.ConfigEnvLastWins | deployment/env-validator.py:70 | a later line with the same key overwrites the earlier value |
| MxcpRefs.MatchRef | deployment/env-validator.py:57 | the match of `\$\{(\w+)\}` at the start of a text; MatchRefSpec states that it finds a name exactly when the text starts with `${NAME}` |
| MxcpRefs.MatchRefSpec | deployment/env-validator.py:57 | the matcher finds `${NAME}` at the start of a text exactly when the text starts with `${`, a non-empty word and `}` |
| MxcpRefs.RefAtLongestWord | deployment/env-validator.py:57 | a reference's name is the whole greedy word run after `${`, so at most one name matches at a position |
| MxcpRefs.FindRefs | deployment/env-validator.py:58 | every captured name is one or more word characters |
| MxcpRefs.FindRefsSound | deployment/env-validator.py:58 | every name `findall` returns occurs in the text as `${NAME}` |
| MxcpRefs.FindRefsComplete | deployment/env-validator.py:58 | every `${NAME}` occurring in the text is returned |
| MxcpRefs.PlaceholderFilterVacuous | deployment/env-validator.py:60 | for a word, the `{{` / `}}` exclusions never reject anything, so the filter is `isupper` alone |
| MxcpRefs.KeepUserVars | deployment/env-validator.py:60 | the comprehension keeps no more names than were captured, and every name it keeps passes the filter |
| MxcpRefs.KeepUserVarsMembers | deployment/env-validator.py:60 | the comprehension keeps a name exactly when it was captured and passes the filter |
| MxcpRefs.Dedup | deployment/env-validator.py:60 | `list(set(xs))` has the same elements as xs, each once |
| MxcpRefs.MxcpConfigVars | deployment/env-validator.py:60 | the returned names have no duplicates |
| MxcpRefs.MxcpConfigVarsSpec | deployment/env-validator.py:57-60 | a name is returned exactly when `${NAME}` occurs in the text and the name is upper-case (at least one of A–Z and no a–z) |
| Findall.FindAll | deployment/env-validator.py:27 | the scan returns at most one match per character of the text, because every match consumes at least one |
| Findall.FindAllSound | deployment/env-validator.py:27 | every result of the left-to-right scan is a match of the pattern at some position of the text |
| Findall.FindAllMatch | deployment/env-validator.py:27 | a match at the start of the text is returned first, and the scan resumes right after it |
| Findall.FindAllSkip | deployment/env-validator.py:27 | positions where the pattern does not match are passed over without affecting the result |
| Findall.FindAllFirst | deployment/env-validator.py:27 | the first result is the match at the first position where the pattern matches, and the scan resumes after that match |
| DockerLabels.LazyClose | deployment/env-validator.py:26 | when `.*?}'` succeeds, the text it crossed is followed by `}'` |
| DockerLabels.LazyCloseSound | deployment/env-validator.py:26 | the text crossed by the lazy `.*?` contains no newline and no earlier `}'` |
| DockerLabels.LazyCloseFinds | deployment/env-validator.py:26 | the lazy `.*?` stops at the first `}'` of a newline-free text |
| DockerLabels.LazyJson | deployment/env-validator.py:26 | a captured JSON text is at least two characters long and is followed by `'` |
| DockerLabels.LazyJsonSound | deployment/env-validator.py:26 | `({.*?})` captures braces around text that the lazy `.*?` may cross |
| DockerLabels.LazyJsonFinds | deployment/env-validator.py:26 | a braced text followed by `'` is captured whole |
| DockerLabels.MatchNameJson | deployment/env-validator.py:26 | a match of `(\w+)='({.*?})'` is the label's text `NAME='{...}'` written at the start, with a word as name and the match's length |
| DockerLabels.NameJsonComplete | deployment/env-validator.py:26 | a well-formed `NAME='{...}'` written at the start is matched whole, with that name, that JSON text and its length |
| DockerLabels.PhaseAt | deployment/env-validator.py:26 | a recognised phase is `runtime` or `cicd`, written at the start and followed by `.` |
| DockerLabels.PhaseAtComplete | deployment/env-validator.py:26 | a text starting with `runtime.` or `cicd.` yields that phase |
| DockerLabels.MatchLabelTail | deployment/env-validator.py:26 | a match of `env\.(runtime\|cicd)\.(\w+)='({.*?})'` is such a label text written at the start, with the match's length |
| DockerLabels.TailComplete | deployment/env-validator.py:26 | a well-formed `env.PHASE.NAME='{...}'` written at the start is matched whole |
| DockerLabels.MatchLabel | deployment/env-validator.py:26 | a match of the whole pattern is `LABEL`, one or more blanks and a well-formed label, all written at the start of the text |
| DockerLabels.LabelComplete | deployment/env-validator.py:26 | a well-formed label written at the start (`LABEL`, blanks, `env.PHASE.NAME='{...}'`) is matched whole: the greedy `\s+` stops at `env`, and the lazy JSON capture stops at the label's own `}'` |
| DockerLabels.FindLabels | deployment/env-validator.py:27 | `re.findall` of the label pattern; FindLabelsSound, FindLabelsAt and FindLabelsFirst state what it returns |
| DockerLabels.FindLabelsSound | deployment/env-validator.py:26-27 | every label `findall` returns is written out, well-formed, somewhere in the Dockerfile, and its phase is `runtime` or `cicd` |
| DockerLabels.FindLabelsAt | deployment/env-validator.py:26-27 | a label at the start of the Dockerfile text is the first one returned, and the scan continues after it |
| DockerLabels.FindLabelsFirst | deployment/env-validator.py:26-27 | a label with no other label starting before it is the first one returned, and the scan continues after it |
| DockerLabels.PhaseEntry | deployment/env-validator.py:29-31 | the entry `labels[phase][name] = json` that a match contributes; LabelRecorded and LabelLastValidWins state what the dictionaries hold |
| DockerLabels.JsonCheck | deployment/env-validator.py:30-33 | the one error that a match with unparsable JSON adds; LabelStep and LabelErrorsNames state its effect |
| DockerLabels.LabelErrors | deployment/env-validator.py:29-33 | the errors of the label loop, in order; LabelErrorsNames states exactly which they are |
| DockerLabels.LabelsOf | deployment/env-validator.py:20 | the result always has exactly the two phase keys `runtime` and `cicd` |
| DockerLabels.LabelRecorded | deployment/env-validator.py:29-31 | a variable is recorded under a phase exactly when some label names it under that phase with JSON text that parses |
| DockerLabels.LabelLastValidWins | deployment/env-validator.py:31 | the recorded value is the JSON text of the last valid label with that phase and name |
| DockerLabels.LabelStep | deployment/env-validator.py:29-33 | a label with valid JSON updates its phase dictionary and adds no error; a label with invalid JSON leaves the dictionaries unchanged and adds exactly one error naming the variable |
| DockerLabels.LabelErrorsNames | deployment/env-validator.py:32-33 | the label errors name exactly the variables of labels whose JSON text does not parse |
| Messages.Text | deployment/env-validator.py:33-126 | the text of each message, as the source's f-strings spell it (lines 33, 100, 103, 109, 112, 120 and 126) |
| Messages.ReportMembers | deployment/env-validator.py:124-126 | a loop that runs a check on each element reports a message exactly when the check of some element produces it |
| Messages.ReportCount | deployment/env-validator.py:124-126 | over distinct elements, a message occurs as often as the check of its own element produces it |
| Rules.SecretErrors | deployment/env-validator.py:124-126 | the errors of the config.env check, in key order; SecretErrorsSpec and SecretErrorsOnce state which they are |
| Rules.MxcpErrors | deployment/env-validator.py:107-112 | the errors of the user-config check, in variable order; MxcpErrorsSpec states which they are |
| Rules.CicdWarnings | deployment/env-validator.py:117-120 | the warnings of the CI/CD check, in workflow order; CicdWarningsSpec states which they are |
| Rules.LegacyErrors | deployment/env-validator.py:98-100 | the errors of the legacy comparison, in runtime-label order; LegacyErrorsSpec states which they are |
| Rules.LegacyWarnings | deployment/env-validator.py:101-103 | the warnings of the legacy comparison, in deploy-list order; LegacyWarningsSpec states which they are |
| Rules.SecretErrorsSpec | deployment/env-validator.py:124-126 | an error is reported exactly for each config key that contains `KEY`, `SECRET` or `TOKEN` (case-sensitive), and names that key; nothing else is reported |
| Rules.SecretErrorsOnce | deployment/env-validator.py:124-126 | over distinct keys, each secret-looking key gives exactly one error and any other key gives none |
| Rules.MxcpErrorsSpec | deployment/env-validator.py:107-112 | a referenced variable is reported as missing from the runtime labels exactly when it is not one, and as not passed exactly when the deploy variables are known and lack it; nothing else is reported |
| Rules.MxcpErrorsDynamic | deployment/env-validator.py:110-112 | with the deploy variables unknown, no variable is reported as not passed, and the runtime-label error is reported exactly for the referenced variables without a runtime label |
| Rules.CicdWarningsSpec | deployment/env-validator.py:117-120 | a warning is given exactly for each workflow key that starts with `AWS_`, or ends with `_ACCESS_KEY_ID` or `_SECRET_ACCESS_KEY`, and has no cicd label |
| Rules.LegacyErrorsSpec | deployment/env-validator.py:98-100 | an error is reported exactly for each runtime label that the deploy variables lack |
| Rules.LegacyWarningsSpec | deployment/env-validator.py:101-103 | a warning is given exactly for each deploy variable without a runtime label, except `MXCP_DATA_ACCESS_KEY_ID` and `MXCP_DATA_SECRET_ACCESS_KEY`, which never warn |
| Rules.ExitCode | deployment/env-validator.py:132-147 | the exit code is 0 or 1, and it is 1 exactly when there is an error; warnings alone give 0 |
| Validator.EnvValidator.constructor | deployment/env-validator.py:14-16 | both lists start empty |
| Validator.EnvValidator.ExtractDockerLabels | deployment/env-validator.py:18-35 | returns the phase dictionaries of the labels found in the Dockerfile and appends one error per invalid label, in order; warnings are unchanged |
| Validator.EnvValidator.RecordLabels | deployment/env-validator.py:29-33 | the loop over the matches builds exactly those dictionaries and appends exactly those errors |
| Validator.EnvValidator.ExtractDeployScriptVars | deployment/env-validator.py:37-42 | the deploy script's variable list is never known |
| Validator.EnvValidator.ExtractConfigEnvVars | deployment/env-validator.py:62-71 | the line-by-line loop builds exactly the dictionary that `ConfigEnvOf` specifies |
| Validator.EnvValidator.CheckDeployVars | deployment/env-validator.py:94-103 | the legacy comparison appends exactly the legacy errors, then exactly the legacy warnings |
| Validator.EnvValidator.CheckMxcpVars | deployment/env-validator.py:105-112 | appends exactly the user-config errors; warnings are unchanged |
| Validator.EnvValidator.CheckCicdVars | deployment/env-validator.py:114-120 | appends exactly the CI/CD warnings and never an error |
| Validator.EnvValidator.CheckConfigEnv | deployment/env-validator.py:122-126 | appends exactly the secret errors; warnings are unchanged |
| Validator.EnvValidator.RunChecks | deployment/env-validator.py:92-147 | the four checks only append, in order, and the legacy check runs only when the deploy variables are known; the code is the exit code of the final lists |
| Validator.EnvValidator.Validate | deployment/env-validator.py:73-147 | both lists only grow, by the label errors and then the check messages computed from the extracted data; the code is 1 exactly when an error was accumulated |
| Validator.ChecksWithoutDeployVars | deployment/env-validator.py:94-120 | with the deploy variables unknown, no "not passed by deploy-app-runner.sh" error is ever produced, and every warning is a CI/CD one |
| Validator.CheckErrorsNeverCicd | deployment/env-validator.py:92-126 | every error the four checks add is a runtime-label, user-config or secret error, and none is of a CI/CD kind; that the CI/CD check never adds an error is the `errors == old(errors)` clause of CheckCicdVars |

## Left out

- File reading, and the choice between a processed file and its `.template` fallback (`Path.exists`) with the notice printed for it. File contents are parameters: the Dockerfile and the user configuration as text, and `config.env` as its lines.
- `yaml.safe_load` of the workflow. The `env:` block is given as its keys, in order, so a missing block (`content.get('env', {})`) is the empty list. A workflow whose `env:` value is null or not a mapping, or that has a key that is not a string (such as `1:`, or YAML 1.1's `on:` read as a boolean), is not modelled. On such a key, `var.startswith` at line 118 raises an exception.
- `json.loads` is a foreign parser. It is the parameter `jsonValid`, a validity predicate on the captured text. The dictionaries record the JSON text in place of the parsed value.
- Unicode: `str.strip()`, `\s`, `\w` and `str.isupper` are restricted to ASCII characters.
- MxcpRefs.Dedup: `list(set(...))` has an unspecified order in Python. The model keeps the first occurrences in order. Only the lemmas about which names are returned (MxcpConfigVarsSpec, no duplicates) hold whatever the order.
- Validator.EnvValidator.Validate: the order of the user-config errors (`ConfigVarNotRuntime`, and `ConfigVarNotPassed` when deploy variables are known) is the model's choice. Python loops over `list(set(...))` at line 107 and may report these errors in any order, which depends on the string hash seed. CheckMxcpVars, RunChecks and Validate state one exact sequence, built in the model's order; the membership lemmas about those errors hold for every order.
- DockerLabels.FindLabelsSound: only soundness holds for every label in the text. Not every well-formed label written in the Dockerfile is returned: `findall` skips one that starts inside an earlier match. FindLabelsAt and FindLabelsFirst state the completeness that does hold: a label is found when no other label starts before it, and the scan continues after it.
- All `print` output, the emoji summary and `sys.exit`. These are presentation only, and the exit code is the result of `Validate`.
- `extract_workflow_env` is not a method of the model, because all it does is load YAML.
- Validator.EnvValidator.Validate: the four numbered checks are separate methods that `RunChecks` calls in the source's order. The message texts are in `Messages.Text`.
