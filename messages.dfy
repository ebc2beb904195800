/** The messages the validator appends to its error and warning lists. */
module Messages {
  import opened Dicts

  datatype Message =
    | InvalidLabelJson(name: string)        // error: a label's JSON text does not parse
    | RuntimeVarNotPassed(name: string)     // error: runtime label not passed by the deploy script
    | UndocumentedDeployVar(name: string)   // warning: deploy script passes an unlabelled variable
    | ConfigVarNotRuntime(name: string)     // error: `${NAME}` used but not a runtime label
    | ConfigVarNotPassed(name: string)      // error: `${NAME}` used but not passed by the deploy script
    | CicdVarUndocumented(name: string)     // warning: CI/CD-looking workflow variable not labelled
    | PotentialSecret(name: string)         // error: secret-looking key in config.env

  /** The text the validator reports for a message, as the source's f-strings spell it. */
  function Text(m: Message): string
  {
    match m
    case InvalidLabelJson(v) => "Invalid JSON in Docker label for " + v
    case RuntimeVarNotPassed(v) => "Runtime var " + v + " in Docker labels but not passed by deploy-app-runner.sh"
    case UndocumentedDeployVar(v) => "Variable " + v + " passed to App Runner but not documented in Docker labels"
    case ConfigVarNotRuntime(v) => "Variable ${" + v + "} used in mxcp-user-config.yml but not documented as runtime requirement"
    case ConfigVarNotPassed(v) => "Variable ${" + v + "} used in mxcp-user-config.yml but not passed by deploy-app-runner.sh"
    case CicdVarUndocumented(v) => "CI/CD variable " + v + " used in workflow but not documented in Docker labels"
    case PotentialSecret(v) => "Potential secret " + v + " found in config.env.template (should be in GitHub Secrets)"
  }

  /** The messages a loop reports when it runs `check` on each of `xs` in order. */
  function Report<T>(xs: seq<T>, check: T -> seq<Message>): seq<Message>
  {
    if xs == [] then [] else Report(xs[..|xs| - 1], check) + check(xs[|xs| - 1])
  }

  /** One more visited variable appends exactly its own messages. */
  lemma ReportStep<T>(xs: seq<T>, check: T -> seq<Message>, x: T)
    ensures Report(xs + [x], check) == Report(xs, check) + check(x)
  {
    assert (xs + [x])[..|xs|] == xs;
  }

  /** Visiting the `i`-th variable after the first `i` appends its messages. */
  lemma ReportPrefix<T>(xs: seq<T>, check: T -> seq<Message>, i: nat)
    requires i < |xs|
    ensures Report(xs[..i + 1], check) == Report(xs[..i], check) + check(xs[i])
  {
    assert xs[..i + 1] == xs[..i] + [xs[i]];
    ReportStep(xs[..i], check, xs[i]);
  }

  /** A message is reported exactly when the check of some visited variable produces it. */
  lemma {:induction false} ReportMembers<T>(xs: seq<T>, check: T -> seq<Message>, e: Message)
    ensures e in Report(xs, check) <==> exists i :: 0 <= i < |xs| && e in check(xs[i])
  {
    if xs != [] {
      var init := xs[..|xs| - 1];
      ReportMembers(init, check, e);
      if exists i :: 0 <= i < |init| && e in check(init[i]) {
        var i :| 0 <= i < |init| && e in check(init[i]);
        assert xs[i] == init[i];
      }
      if exists i :: 0 <= i < |xs| && e in check(xs[i]) {
        var i :| 0 <= i < |xs| && e in check(xs[i]);
        if i < |init| {
          assert init[i] == xs[i];
        }
      }
    }
  }

  /** How often `e` occurs among the messages: the sum over the visited variables. */
  lemma {:induction false} ReportCount<T>(xs: seq<T>, check: T -> seq<Message>, e: Message, x: T)
    requires forall i :: 0 <= i < |xs| && xs[i] != x ==> e !in check(xs[i])
    requires NoDuplicates(xs)
    ensures multiset(Report(xs, check))[e] == if x in xs then multiset(check(x))[e] else 0
  {
    if xs != [] {
      var init := xs[..|xs| - 1];
      var last := xs[|xs| - 1];
      assert forall i :: 0 <= i < |init| ==> init[i] == xs[i];
      ReportCount(init, check, e, x);
      assert xs == init + [last];
      if last == x {
        assert x !in init;
      } else {
        assert e !in check(last);
        assert x in xs <==> x in init;
      }
    }
  }
}
