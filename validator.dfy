/**
 * The validator object: it accumulates errors and warnings while it
 * extracts variables from the deployment files and cross-checks them, and
 * derives the exit code from what it accumulated. File contents are given
 * as values: the Dockerfile and the user config as text, the config.env
 * file as its lines, and the workflow's `env:` block as its keys in order.
 */
module Validator {
  import opened Wrappers
  import opened Dicts
  import opened Messages
  import opened ConfigEnv
  import opened MxcpRefs
  import opened DockerLabels
  import opened Rules

  /**
   * The errors the four checks append, in the order they run, given the
   * runtime labels, the deploy script's variables (if known), the user
   * config's `${NAME}` variables and the config.env keys.
   */
  function CheckErrors(runtime: Dict<string>, deployVars: Option<seq<string>>,
                       mxcpVars: seq<string>, configKeys: seq<string>): seq<Message>
  {
    (if deployVars.Some? then LegacyErrors(runtime, deployVars.value) else []) +
    MxcpErrors(mxcpVars, runtime, deployVars) +
    SecretErrors(configKeys)
  }

  /** The warnings the four checks append, in the order they run. */
  function CheckWarnings(runtime: Dict<string>, cicd: Dict<string>, deployVars: Option<seq<string>>,
                         workflowEnv: seq<string>): seq<Message>
  {
    (if deployVars.Some? then LegacyWarnings(deployVars.value, runtime) else []) +
    CicdWarnings(workflowEnv, cicd)
  }

  class EnvValidator {
    var errors: seq<Message>
    var warnings: seq<Message>

    constructor()
      ensures errors == [] && warnings == []
    {
      errors := [];
      warnings := [];
    }

    /**
     * Scan the Dockerfile for `env.<phase>.<NAME>` labels and record each
     * label's JSON text under its phase, reporting an error for each label
     * whose JSON text does not parse.
     */
    method ExtractDockerLabels(content: string, jsonValid: string -> bool) returns (labels: map<string, Dict<string>>)
      modifies this
      ensures labels == LabelsOf(FindLabels(content), jsonValid)
      ensures errors == old(errors) + LabelErrors(FindLabels(content), jsonValid)
      ensures warnings == old(warnings)
    {
      var found := FindLabels(content);
      forall k | 0 <= k < |found|
        ensures IsPhase(found[k].entry.phase)
      {
        FindLabelsSound(content, k);
      }
      labels := RecordLabels(found, jsonValid);
    }

    /** The loop over the matches of `extract_docker_labels`. */
    method RecordLabels(found: seq<Found>, jsonValid: string -> bool) returns (labels: map<string, Dict<string>>)
      requires forall k :: 0 <= k < |found| ==> IsPhase(found[k].entry.phase)
      modifies this
      ensures labels == LabelsOf(found, jsonValid)
      ensures errors == old(errors) + LabelErrors(found, jsonValid)
      ensures warnings == old(warnings)
    {
      labels := map[Runtime := EmptyDict(), Cicd := EmptyDict()];
      for i := 0 to |found|
        invariant labels == LabelsOf(found[..i], jsonValid)
        invariant errors == old(errors) + LabelErrors(found[..i], jsonValid)
        invariant warnings == old(warnings)
      {
        var m := found[i].entry;
        LabelPrefixStep(found, jsonValid, i);
        if jsonValid(m.json) {
          labels := labels[m.phase := labels[m.phase].Put(m.name, m.json)];
        } else {
          errors := errors + [InvalidLabelJson(m.name)];
        }
      }
      assert found[..|found|] == found;
    }

    /** The deploy script discovers its variables from the labels itself, so there is no list to compare. */
    static function ExtractDeployScriptVars(): (deployVars: Option<seq<string>>)
      ensures deployVars.None?
    {
      None
    }

    /** Read config.env line by line; a later definition of a key overwrites an earlier one. */
    method ExtractConfigEnvVars(lines: seq<string>) returns (vars: Dict<string>)
      ensures vars == ConfigEnvOf(lines)
    {
      vars := EmptyDict();
      for i := 0 to |lines|
        invariant vars == Collect(lines[..i], ParseLine)
      {
        var entry := ParseLine(lines[i]);
        CollectPrefix(lines, ParseLine, i);
        if entry.Some? {
          vars := vars.Put(entry.value.0, entry.value.1);
        }
      }
      assert lines[..|lines|] == lines;
    }

    /** Validation 1: runtime labels against the deploy script's variables. */
    method CheckDeployVars(runtime: Dict<string>, deployVars: seq<string>)
      modifies this
      ensures errors == old(errors) + LegacyErrors(runtime, deployVars)
      ensures warnings == old(warnings) + LegacyWarnings(deployVars, runtime)
    {
      var check := v => RuntimePassedCheck(deployVars, v);
      for i := 0 to |runtime.keys|
        invariant errors == old(errors) + Report(runtime.keys[..i], check)
        invariant warnings == old(warnings)
      {
        var v := runtime.keys[i];
        ReportPrefix(runtime.keys, check, i);
        if v !in deployVars {
          errors := errors + [RuntimeVarNotPassed(v)];
        }
      }
      assert runtime.keys[..|runtime.keys|] == runtime.keys;
      var warn := v => DeployDocumentedCheck(runtime, v);
      for i := 0 to |deployVars|
        invariant errors == old(errors) + LegacyErrors(runtime, deployVars)
        invariant warnings == old(warnings) + Report(deployVars[..i], warn)
      {
        var v := deployVars[i];
        ReportPrefix(deployVars, warn, i);
        if v !in runtime.values && v !in DeployExempt {
          warnings := warnings + [UndocumentedDeployVar(v)];
        }
      }
      assert deployVars[..|deployVars|] == deployVars;
    }

    /** Validation 2: every `${NAME}` of the user config is a runtime label and, if known, passed. */
    method CheckMxcpVars(vars: seq<string>, runtime: Dict<string>, deployVars: Option<seq<string>>)
      modifies this
      ensures errors == old(errors) + MxcpErrors(vars, runtime, deployVars)
      ensures warnings == old(warnings)
    {
      var check := v => MxcpCheck(runtime, deployVars, v);
      for i := 0 to |vars|
        invariant errors == old(errors) + Report(vars[..i], check)
        invariant warnings == old(warnings)
      {
        var v := vars[i];
        ReportPrefix(vars, check, i);
        if v !in runtime.values {
          errors := errors + [ConfigVarNotRuntime(v)];
        }
        if deployVars.Some? && v !in deployVars.value {
          errors := errors + [ConfigVarNotPassed(v)];
        }
      }
      assert vars[..|vars|] == vars;
    }

    /** Validation 3: CI/CD-looking workflow variables have a `cicd` label; only warns. */
    method CheckCicdVars(workflowEnv: seq<string>, cicd: Dict<string>)
      modifies this
      ensures errors == old(errors)
      ensures warnings == old(warnings) + CicdWarnings(workflowEnv, cicd)
    {
      var check := k => CicdCheck(cicd, k);
      for i := 0 to |workflowEnv|
        invariant errors == old(errors)
        invariant warnings == old(warnings) + Report(workflowEnv[..i], check)
      {
        var v := workflowEnv[i];
        ReportPrefix(workflowEnv, check, i);
        if LooksCicd(v) && v !in cicd.values {
          warnings := warnings + [CicdVarUndocumented(v)];
        }
      }
      assert workflowEnv[..|workflowEnv|] == workflowEnv;
    }

    /** Validation 4: no config.env key looks like a secret. */
    method CheckConfigEnv(configEnv: Dict<string>)
      modifies this
      ensures errors == old(errors) + SecretErrors(configEnv.keys)
      ensures warnings == old(warnings)
    {
      var keys := configEnv.keys;
      for i := 0 to |keys|
        invariant errors == old(errors) + Report(keys[..i], SecretCheck)
        invariant warnings == old(warnings)
      {
        var v := keys[i];
        ReportPrefix(keys, SecretCheck, i);
        if LooksSecret(v) {
          errors := errors + [PotentialSecret(v)];
        }
      }
      assert keys[..|keys|] == keys;
    }

    /**
     * The four checks of `validate`, in order, followed by the exit code;
     * the legacy comparison runs only when the deploy variables are known.
     */
    method RunChecks(runtime: Dict<string>, cicd: Dict<string>, deployVars: Option<seq<string>>,
                     workflowEnv: seq<string>, mxcpVars: seq<string>, configEnv: Dict<string>) returns (code: int)
      modifies this
      ensures errors == old(errors) + CheckErrors(runtime, deployVars, mxcpVars, configEnv.keys)
      ensures warnings == old(warnings) + CheckWarnings(runtime, cicd, deployVars, workflowEnv)
      ensures code == ExitCode(errors, warnings)
    {
      if deployVars.Some? {
        CheckDeployVars(runtime, deployVars.value);
      }
      CheckMxcpVars(mxcpVars, runtime, deployVars);
      CheckCicdVars(workflowEnv, cicd);
      CheckConfigEnv(configEnv);
      code := ExitCode(errors, warnings);
    }

    /**
     * `validate`: extract the labels, the deploy script's variables (never
     * known), the user config's variables and config.env, run the checks
     * and return the exit code.
     */
    method Validate(dockerfile: string, jsonValid: string -> bool, workflowEnv: seq<string>,
                    mxcpConfig: string, configEnv: seq<string>) returns (code: int)
      modifies this
      ensures var labels := LabelsOf(FindLabels(dockerfile), jsonValid);
        errors == old(errors) + LabelErrors(FindLabels(dockerfile), jsonValid) +
          CheckErrors(labels[Runtime], None, MxcpConfigVars(mxcpConfig), ConfigEnvOf(configEnv).keys)
      ensures var labels := LabelsOf(FindLabels(dockerfile), jsonValid);
        warnings == old(warnings) + CheckWarnings(labels[Runtime], labels[Cicd], None, workflowEnv)
      ensures code == ExitCode(errors, warnings)
    {
      var labels := ExtractDockerLabels(dockerfile, jsonValid);
      var deployVars := ExtractDeployScriptVars();
      var mxcpVars := MxcpConfigVars(mxcpConfig);
      var env := ExtractConfigEnvVars(configEnv);
      code := RunChecks(labels[Runtime], labels[Cicd], deployVars, workflowEnv, mxcpVars, env);
    }
  }

  /**
   * With the deploy variables unknown, the checks never report a variable
   * as not passed by the deploy script, and their only warnings are CI/CD ones.
   */
  lemma ChecksWithoutDeployVars(runtime: Dict<string>, cicd: Dict<string>, workflowEnv: seq<string>,
                                mxcpVars: seq<string>, configKeys: seq<string>, v: string)
    ensures ConfigVarNotPassed(v) !in CheckErrors(runtime, None, mxcpVars, configKeys)
    ensures RuntimeVarNotPassed(v) !in CheckErrors(runtime, None, mxcpVars, configKeys)
    ensures forall e :: e in CheckWarnings(runtime, cicd, None, workflowEnv) ==> e.CicdVarUndocumented?
  {
    MxcpErrorsSpec(mxcpVars, runtime, None, ConfigVarNotPassed(v));
    MxcpErrorsSpec(mxcpVars, runtime, None, RuntimeVarNotPassed(v));
    SecretErrorsSpec(configKeys, ConfigVarNotPassed(v));
    SecretErrorsSpec(configKeys, RuntimeVarNotPassed(v));
    forall e | e in CheckWarnings(runtime, cicd, None, workflowEnv)
      ensures e.CicdVarUndocumented?
    {
      CicdWarningsSpec(workflowEnv, cicd, e);
    }
  }

  /** The CI/CD check never contributes an error: every error comes from one of the other checks. */
  lemma CheckErrorsNeverCicd(runtime: Dict<string>, deployVars: Option<seq<string>>,
                             mxcpVars: seq<string>, configKeys: seq<string>, e: Message)
    requires runtime.Valid()
    requires e in CheckErrors(runtime, deployVars, mxcpVars, configKeys)
    ensures e.RuntimeVarNotPassed? || e.ConfigVarNotRuntime? || e.ConfigVarNotPassed? || e.PotentialSecret?
  {
    if deployVars.Some? {
      LegacyErrorsSpec(runtime, deployVars.value, e);
    }
    MxcpErrorsSpec(mxcpVars, runtime, deployVars, e);
    SecretErrorsSpec(configKeys, e);
  }
}
