/**
 * The four consistency rules of `validate` and its exit code, as functions
 * of the extracted variables. Each rule visits a list of variables in order
 * and reports zero or more messages for each of them.
 */
module Rules {
  import opened Wrappers
  import opened Text
  import opened Dicts
  import opened Messages

  /** A config.env key that looks like a secret: it contains `KEY`, `SECRET` or `TOKEN` (case-sensitive). */
  predicate LooksSecret(key: string)
  {
    Contains(key, "KEY") || Contains(key, "SECRET") || Contains(key, "TOKEN")
  }

  /** A workflow variable that looks like a CI/CD credential. */
  predicate LooksCicd(key: string)
  {
    StartsWith(key, "AWS_") || EndsWith(key, "_ACCESS_KEY_ID") || EndsWith(key, "_SECRET_ACCESS_KEY")
  }

  /** Variables the deploy script may pass without a runtime label. */
  const DeployExempt: seq<string> := ["MXCP_DATA_ACCESS_KEY_ID", "MXCP_DATA_SECRET_ACCESS_KEY"]

  // Validation 4: secrets in config.env

  function SecretCheck(key: string): seq<Message>
  {
    if LooksSecret(key) then [PotentialSecret(key)] else []
  }

  /** The errors of the config.env check, over the config.env keys. */
  function SecretErrors(keys: seq<string>): seq<Message>
  {
    Report(keys, SecretCheck)
  }

  /** An error is reported exactly for each key that looks like a secret, naming that key. */
  lemma SecretErrorsSpec(keys: seq<string>, e: Message)
    ensures e in SecretErrors(keys) <==> exists i :: 0 <= i < |keys| && LooksSecret(keys[i]) && e == PotentialSecret(keys[i])
  {
    ReportMembers(keys, SecretCheck, e);
  }

  /** Over distinct keys, a secret-looking key gives exactly one error and any other key none. */
  lemma SecretErrorsOnce(keys: seq<string>, key: string)
    requires NoDuplicates(keys)
    ensures multiset(SecretErrors(keys))[PotentialSecret(key)] == if key in keys && LooksSecret(key) then 1 else 0
  {
    ReportCount(keys, SecretCheck, PotentialSecret(key), key);
  }

  // Validation 2: `${NAME}` references of the user config

  /**
   * A referenced variable must be a runtime label and, when the deploy
   * script's variables are known, be passed by it; both errors can occur.
   */
  function MxcpCheck(runtime: Dict<string>, deployVars: Option<seq<string>>, v: string): seq<Message>
  {
    (if v !in runtime.values then [ConfigVarNotRuntime(v)] else []) +
    (if deployVars.Some? && v !in deployVars.value then [ConfigVarNotPassed(v)] else [])
  }

  function MxcpErrors(vars: seq<string>, runtime: Dict<string>, deployVars: Option<seq<string>>): seq<Message>
  {
    Report(vars, v => MxcpCheck(runtime, deployVars, v))
  }

  /**
   * A referenced variable is reported as missing from the runtime labels
   * exactly when it is not one, and as not passed exactly when the deploy
   * variables are known and do not include it; nothing else is reported.
   */
  lemma MxcpErrorsSpec(vars: seq<string>, runtime: Dict<string>, deployVars: Option<seq<string>>, e: Message)
    ensures e in MxcpErrors(vars, runtime, deployVars) <==>
      (e.ConfigVarNotRuntime? && e.name in vars && e.name !in runtime.values) ||
      (e.ConfigVarNotPassed? && e.name in vars && deployVars.Some? && e.name !in deployVars.value)
  {
    var check := v => MxcpCheck(runtime, deployVars, v);
    ReportMembers(vars, check, e);
    if e in MxcpErrors(vars, runtime, deployVars) {
      var i :| 0 <= i < |vars| && e in check(vars[i]);
    }
    if e.name in vars {
      var i :| 0 <= i < |vars| && vars[i] == e.name;
      assert ((e.ConfigVarNotRuntime? && e.name !in runtime.values) ||
              (e.ConfigVarNotPassed? && deployVars.Some? && e.name !in deployVars.value)) ==> e in check(vars[i]);
    }
  }

  /** With the deploy variables unknown, no variable is ever reported as not passed. */
  lemma MxcpErrorsDynamic(vars: seq<string>, runtime: Dict<string>, v: string)
    ensures ConfigVarNotPassed(v) !in MxcpErrors(vars, runtime, None)
    ensures ConfigVarNotRuntime(v) in MxcpErrors(vars, runtime, None) <==> v in vars && v !in runtime.values
  {
    MxcpErrorsSpec(vars, runtime, None, ConfigVarNotPassed(v));
    MxcpErrorsSpec(vars, runtime, None, ConfigVarNotRuntime(v));
  }

  // Validation 3: CI/CD variables of the workflow

  function CicdCheck(cicd: Dict<string>, key: string): seq<Message>
  {
    if LooksCicd(key) && key !in cicd.values then [CicdVarUndocumented(key)] else []
  }

  /** The warnings of the CI/CD check, over the workflow's `env:` keys. */
  function CicdWarnings(keys: seq<string>, cicd: Dict<string>): seq<Message>
  {
    Report(keys, k => CicdCheck(cicd, k))
  }

  /** A warning is given exactly for each CI/CD-looking workflow key without a `cicd` label. */
  lemma CicdWarningsSpec(keys: seq<string>, cicd: Dict<string>, e: Message)
    ensures e in CicdWarnings(keys, cicd) <==>
      exists i :: 0 <= i < |keys| && LooksCicd(keys[i]) && keys[i] !in cicd.values && e == CicdVarUndocumented(keys[i])
  {
    ReportMembers(keys, k => CicdCheck(cicd, k), e);
  }

  // Validation 1: the legacy comparison with the deploy script's variables

  function RuntimePassedCheck(deployVars: seq<string>, v: string): seq<Message>
  {
    if v !in deployVars then [RuntimeVarNotPassed(v)] else []
  }

  function DeployDocumentedCheck(runtime: Dict<string>, v: string): seq<Message>
  {
    if v !in runtime.values && v !in DeployExempt then [UndocumentedDeployVar(v)] else []
  }

  /** Errors for the runtime labels, in label order, that the deploy script does not pass. */
  function LegacyErrors(runtime: Dict<string>, deployVars: seq<string>): seq<Message>
  {
    Report(runtime.keys, v => RuntimePassedCheck(deployVars, v))
  }

  /** Warnings for the deploy script's variables, in its order, that have no runtime label. */
  function LegacyWarnings(deployVars: seq<string>, runtime: Dict<string>): seq<Message>
  {
    Report(deployVars, v => DeployDocumentedCheck(runtime, v))
  }

  /** Each runtime label the deploy script does not pass is an error, and nothing else is. */
  lemma LegacyErrorsSpec(runtime: Dict<string>, deployVars: seq<string>, e: Message)
    requires runtime.Valid()
    ensures e in LegacyErrors(runtime, deployVars) <==>
      e.RuntimeVarNotPassed? && e.name in runtime.values && e.name !in deployVars
  {
    var check := v => RuntimePassedCheck(deployVars, v);
    ReportMembers(runtime.keys, check, e);
    if e.RuntimeVarNotPassed? && e.name in runtime.values {
      var i :| 0 <= i < |runtime.keys| && runtime.keys[i] == e.name;
      assert e.name !in deployVars ==> e in check(runtime.keys[i]);
    }
  }

  /**
   * Each deploy variable without a runtime label is a warning, except the two
   * exempt ones, which are never reported.
   */
  lemma LegacyWarningsSpec(deployVars: seq<string>, runtime: Dict<string>, e: Message)
    ensures e in LegacyWarnings(deployVars, runtime) <==>
      e.UndocumentedDeployVar? && e.name in deployVars && e.name !in runtime.values && e.name !in DeployExempt
  {
    var check := v => DeployDocumentedCheck(runtime, v);
    ReportMembers(deployVars, check, e);
    if e.UndocumentedDeployVar? && e.name in deployVars {
      var i :| 0 <= i < |deployVars| && deployVars[i] == e.name;
      assert e.name !in runtime.values && e.name !in DeployExempt ==> e in check(deployVars[i]);
    }
  }

  /** The exit code: 1 when there is any error, 0 otherwise, warnings or not. */
  function ExitCode(errors: seq<Message>, warnings: seq<Message>): (code: int)
    ensures code == 0 || code == 1
    ensures code == 1 <==> errors != []
  {
    if errors == [] && warnings == [] then 0
    else if errors != [] then 1
    else 0
  }
}
