/** `check_module_installed` of tool_kit.py. The single-module check
    `_check_module_installed(module, version, raise_error=False)` is an input
    `probe`: for a module name and an optional required version it gives the
    message describing what is wrong, or `None`. */
module ModuleCheck {
  import opened Wrappers
  import Strings

  /** The `modules` argument: one name or a list of names. */
  datatype Modules = OneModule(name: string) | ModuleList(names: seq<string>)

  /** The `version` argument: absent, one version for every module, or a list. */
  datatype Versions = NoVersion | OneVersion(version: string) | VersionList(versions: seq<string>)

  /** What a call ends with: `None`, the list of issues, or `ImportError(message)`. */
  datatype CheckResult = NoIssues | IssueList(issues: seq<string>) | ImportError(message: string)

  type Probe = (string, Option<string>) -> Option<string>

  /** `modules` after a single name is wrapped into a one-element list. */
  function ModuleNames(modules: Modules): seq<string>
  {
    match modules
    case OneModule(name) => [name]
    case ModuleList(names) => names
  }

  /** `version` after a single version string is repeated once per module. */
  function VersionNames(version: Versions, count: nat): Option<seq<string>>
  {
    match version
    case NoVersion => None
    case OneVersion(v) => Some(seq(count, _ => v))
    case VersionList(vs) => Some(vs)
  }

  /** The version checked for the module at `idx`: none when the version list
      is absent or empty or too short. */
  function VersionAt(versions: Option<seq<string>>, idx: nat): Option<string>
  {
    if versions.Some? && |versions.value| > 0 && idx < |versions.value|
    then Some(versions.value[idx]) else None
  }

  /** Python truthiness of an optional message. */
  predicate IsIssue(message: Option<string>) { message.Some? && message.value != "" }

  /** The module at `idx` has an issue. */
  predicate Fails(names: seq<string>, versions: Option<seq<string>>, probe: Probe, idx: nat)
    requires idx < |names|
  {
    IsIssue(probe(names[idx], VersionAt(versions, idx)))
  }

  /** The issues of the first `n` modules, in module order. */
  function IssuesUpTo(names: seq<string>, versions: Option<seq<string>>, probe: Probe, n: nat): (issues: seq<string>)
    requires n <= |names|
    ensures |issues| <= n
  {
    if n == 0 then []
    else
      IssuesUpTo(names, versions, probe, n - 1)
      + (if Fails(names, versions, probe, n - 1) then [probe(names[n - 1], VersionAt(versions, n - 1)).value] else [])
  }

  /** The result a call with these issues ends with. */
  function Outcome(issues: seq<string>, raiseError: bool): CheckResult
  {
    if issues == [] then NoIssues
    else if raiseError then ImportError(Strings.Join(issues, "\n"))
    else IssueList(issues)
  }

  /** `check_module_installed(modules, version, raise_error)`. */
  method CheckModuleInstalled(modules: Modules, version: Versions, raiseError: bool, probe: Probe)
    returns (r: CheckResult)
    ensures var names := ModuleNames(modules);
      r == Outcome(IssuesUpTo(names, VersionNames(version, |names|), probe, |names|), raiseError)
  {
    var names := ModuleNames(modules);
    var versions := VersionNames(version, |names|);
    var issues: seq<string> := [];
    var idx := 0;
    while idx < |names|
      invariant 0 <= idx <= |names|
      invariant issues == IssuesUpTo(names, versions, probe, idx)
    {
      var issue := probe(names[idx], VersionAt(versions, idx));
      if IsIssue(issue) {
        issues := issues + [issue.value];
      }
      idx := idx + 1;
    }
    if issues != [] {
      if raiseError {
        return ImportError(Strings.Join(issues, "\n"));
      }
      return IssueList(issues);
    }
    return NoIssues;
  }

  /** How each module's version is chosen: a single name is one module; a
      single version applies to every module; a list gives the version of the
      module at the same position, and modules past its end are checked with
      no version. */
  lemma VersionsPerModule(modules: Modules, version: Versions, idx: nat)
    ensures modules.OneModule? ==> ModuleNames(modules) == [modules.name]
    ensures var names := ModuleNames(modules); var vs := VersionNames(version, |names|);
      && (version.NoVersion? ==> VersionAt(vs, idx) == None)
      && (version.OneVersion? && idx < |names| ==> VersionAt(vs, idx) == Some(version.version))
      && (version.VersionList? && idx < |version.versions| ==> VersionAt(vs, idx) == Some(version.versions[idx]))
      && (version.VersionList? && idx >= |version.versions| ==> VersionAt(vs, idx) == None)
  {
  }

  /** The number of failing modules among the first `n`. */
  function FailCount(names: seq<string>, versions: Option<seq<string>>, probe: Probe, n: nat): nat
    requires n <= |names|
  {
    if n == 0 then 0
    else FailCount(names, versions, probe, n - 1) + (if Fails(names, versions, probe, n - 1) then 1 else 0)
  }

  /** One issue per failing module, in module order: the issues list has one
      entry per failing module, and the failing module at `i` contributes
      its message at position FailCount(i), after those of the failing modules
      before it. */
  lemma {:induction false} IssuesInModuleOrder(names: seq<string>, versions: Option<seq<string>>, probe: Probe, n: nat)
    requires n <= |names|
    ensures |IssuesUpTo(names, versions, probe, n)| == FailCount(names, versions, probe, n)
    ensures forall i :: 0 <= i < n && Fails(names, versions, probe, i) ==>
      FailCount(names, versions, probe, i) < FailCount(names, versions, probe, n) &&
      IssuesUpTo(names, versions, probe, n)[FailCount(names, versions, probe, i)]
        == probe(names[i], VersionAt(versions, i)).value
  {
    if n > 0 {
      IssuesInModuleOrder(names, versions, probe, n - 1);
      forall i | 0 <= i < n && Fails(names, versions, probe, i)
        ensures FailCount(names, versions, probe, i) < FailCount(names, versions, probe, n)
        ensures IssuesUpTo(names, versions, probe, n)[FailCount(names, versions, probe, i)]
             == probe(names[i], VersionAt(versions, i)).value
      {
        if i < n - 1 {
          FailCountMonotone(names, versions, probe, i + 1, n - 1);
        }
      }
    }
  }

  lemma {:induction false} FailCountMonotone(names: seq<string>, versions: Option<seq<string>>, probe: Probe, m: nat, n: nat)
    requires m <= n <= |names|
    ensures FailCount(names, versions, probe, m) <= FailCount(names, versions, probe, n)
    decreases n - m
  {
    if m < n {
      FailCountMonotone(names, versions, probe, m, n - 1);
    }
  }

  /** The call ends with `None` exactly when no module fails; otherwise, with
      `raise_error` set it raises ImportError carrying the issues joined by
      newlines, and without it returns the issues. */
  lemma {:induction false} NoIssuesIffAllPass(names: seq<string>, versions: Option<seq<string>>, probe: Probe, raiseError: bool)
    ensures var issues := IssuesUpTo(names, versions, probe, |names|);
      && (Outcome(issues, raiseError) == NoIssues
          <==> forall i :: 0 <= i < |names| ==> !Fails(names, versions, probe, i))
      && (issues != [] && raiseError ==> Outcome(issues, raiseError) == ImportError(Strings.Join(issues, "\n")))
      && (issues != [] && !raiseError ==> Outcome(issues, raiseError) == IssueList(issues))
  {
    IssuesInModuleOrder(names, versions, probe, |names|);
    FailCountZero(names, versions, probe, |names|);
  }

  lemma {:induction false} FailCountZero(names: seq<string>, versions: Option<seq<string>>, probe: Probe, n: nat)
    requires n <= |names|
    ensures FailCount(names, versions, probe, n) == 0 <==> forall i :: 0 <= i < n ==> !Fails(names, versions, probe, i)
  {
    if n > 0 {
      FailCountZero(names, versions, probe, n - 1);
    }
  }
}
