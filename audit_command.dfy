/**
 * `scan_deps` of lib/salus/scanners/yarn_audit.rb: the `--groups` argument
 * appended to `yarn audit --no-color` from the `exclude_groups` setting,
 * with the error and the warning it reports along the way.
 */
module AuditCommand {
  import opened Wrappers

  const LegacyCommand := "yarn audit --no-color"

  /** What `scan_deps` reports: `report_error("No dependencies were scanned!")` or the misconfiguration warning. */
  datatype Notice = NothingScanned | OnlyOptionalScanned

  /** The dependency groups yarn audits, in the order `scan_deps` lists them. */
  const AllGroups: seq<string> := ["dependencies", "devDependencies", "optionalDependencies"]

  predicate ExcludesAll(depTypes: seq<string>) {
    "devDependencies" in depTypes && "dependencies" in depTypes && "optionalDependencies" in depTypes
  }

  /** The notices `scan_deps` reports for a non-empty setting. */
  function Notices(depTypes: seq<string>): seq<Notice> {
    if ExcludesAll(depTypes) then [NothingScanned]
    else if "devDependencies" in depTypes && "dependencies" in depTypes then [OnlyOptionalScanned]
    else []
  }

  /** `"#{LEGACY_YARN_AUDIT_COMMAND} #{scan_deps}"`: nil interpolates as the empty string. */
  function CommandLine(scan: Option<string>): string {
    match scan
    case None => LegacyCommand + " "
    case Some(s) => LegacyCommand + " " + s
  }

  function Unless(excluded: bool, word: string): seq<string> {
    if excluded then [] else [word]
  }

  /** The groups not excluded, in `AllGroups` order: the three `command << '...' unless ...` steps. */
  function Included(depTypes: seq<string>): seq<string> {
    Unless("dependencies" in depTypes, "dependencies") +
    Unless("devDependencies" in depTypes, "devDependencies") +
    Unless("optionalDependencies" in depTypes, "optionalDependencies")
  }

  /** The words of a `--groups` list, each followed by a space. */
  function Words(groups: seq<string>): string {
    if |groups| == 0 then "" else groups[0] + " " + Words(groups[1..])
  }

  lemma {:induction false} WordsConcat(a: seq<string>, b: seq<string>)
    ensures Words(a + b) == Words(a) + Words(b)
    decreases |a|
  {
    if |a| == 0 {
      assert a + b == b;
    } else {
      assert (a + b)[0] == a[0] && (a + b)[1..] == a[1..] + b;
      WordsConcat(a[1..], b);
    }
  }

  lemma WordsOfIncluded(depTypes: seq<string>)
    ensures Words(Included(depTypes)) ==
      (if "dependencies" in depTypes then "" else "dependencies ") +
      (if "devDependencies" in depTypes then "" else "devDependencies ") +
      (if "optionalDependencies" in depTypes then "" else "optionalDependencies ")
  {
    var a := Unless("dependencies" in depTypes, "dependencies");
    var b := Unless("devDependencies" in depTypes, "devDependencies");
    var c := Unless("optionalDependencies" in depTypes, "optionalDependencies");
    WordsConcat(a + b, c);
    WordsConcat(a, b);
    assert Words(["dependencies"]) == "dependencies ";
    assert Words(["devDependencies"]) == "devDependencies ";
    assert Words(["optionalDependencies"]) == "optionalDependencies ";
  }

  /**
   * `scan_deps` as written: the value of the last statement,
   * `command << '...' unless dep_types.include?('optionalDependencies')`,
   * which is nil when `optionalDependencies` is excluded.
   */
  function ScanDepsAsWritten(depTypes: seq<string>): (Option<string>, seq<Notice>) {
    if |depTypes| == 0 then (Some(""), [])
    else if ExcludesAll(depTypes) then (Some(""), Notices(depTypes))
    else if "optionalDependencies" in depTypes then (None, Notices(depTypes))
    else (Some(" --groups " + Words(Included(depTypes))), Notices(depTypes))
  }

  /** `scan_deps` returning the `--groups` argument it has built. */
  function ScanDepsIntended(depTypes: seq<string>): (Option<string>, seq<Notice>) {
    if |depTypes| == 0 then (Some(""), [])
    else if ExcludesAll(depTypes) then (Some(""), Notices(depTypes))
    else (Some(" --groups " + Words(Included(depTypes))), Notices(depTypes))
  }

  /**
   * Excluding only `optionalDependencies` makes `scan_deps` return nil, so
   * the command has no `--groups` argument at all and yarn audits every
   * group, the excluded one included.
   */
  lemma ExcludingOptionalAuditsEverything()
    ensures ScanDepsAsWritten(["optionalDependencies"]) == (None, [])
    ensures CommandLine(ScanDepsAsWritten(["optionalDependencies"]).0) == "yarn audit --no-color "
    ensures ScanDepsIntended(["optionalDependencies"]).0 == Some(" --groups " + Words(["dependencies", "devDependencies"]))
  {
    var dt := ["optionalDependencies"];
    assert "dependencies" !in dt && "devDependencies" !in dt && "optionalDependencies" in dt;
    assert Included(dt) == ["dependencies", "devDependencies"];
  }

  /** The two differ only where `optionalDependencies` is excluded without the other two. */
  lemma AsWrittenDiffersOnlyOnOptional(depTypes: seq<string>)
    ensures ScanDepsAsWritten(depTypes).1 == ScanDepsIntended(depTypes).1
    ensures ScanDepsAsWritten(depTypes).0 != ScanDepsIntended(depTypes).0 <==>
      |depTypes| > 0 && "optionalDependencies" in depTypes && !ExcludesAll(depTypes)
  {
  }

  /**
   * With at least one group left, the intended argument lists exactly the
   * groups that are not excluded, in the order dependencies,
   * devDependencies, optionalDependencies.
   */
  lemma IntendedListsIncludedGroups(depTypes: seq<string>, g: string)
    requires |depTypes| > 0 && !ExcludesAll(depTypes)
    ensures ScanDepsIntended(depTypes).0 == Some(" --groups " + Words(Included(depTypes)))
    ensures g in Included(depTypes) <==> g in AllGroups && g !in depTypes
    ensures |Included(depTypes)| > 0
  {
  }

  /** The warning comes exactly when only `optionalDependencies` is left to scan. */
  lemma OnlyOptionalWarning(depTypes: seq<string>)
    requires |depTypes| > 0
    ensures OnlyOptionalScanned in ScanDepsAsWritten(depTypes).1 <==>
      Included(depTypes) == ["optionalDependencies"]
    ensures NothingScanned in ScanDepsAsWritten(depTypes).1 <==> Included(depTypes) == []
  {
    assert |"dependencies"| != |"optionalDependencies"| && |"devDependencies"| != |"optionalDependencies"|;
    if "dependencies" !in depTypes {
      assert Included(depTypes)[0] == "dependencies";
    } else if "devDependencies" !in depTypes {
      assert Included(depTypes)[0] == "devDependencies";
    }
  }

  /** The `command << '...' unless ...` steps of `scan_deps`; the last one's value is the result. */
  method GroupsArgument(depTypes: seq<string>) returns (scan: Option<string>)
    ensures "optionalDependencies" in depTypes ==> scan.None?
    ensures "optionalDependencies" !in depTypes ==> scan == Some(" --groups " + Words(Included(depTypes)))
  {
    var command := " --groups ";
    ghost var a := if "dependencies" in depTypes then "" else "dependencies ";
    ghost var b := if "devDependencies" in depTypes then "" else "devDependencies ";
    ghost var c := if "optionalDependencies" in depTypes then "" else "optionalDependencies ";
    if "dependencies" !in depTypes {
      command := command + "dependencies ";
    }
    assert command == " --groups " + a;
    if "devDependencies" !in depTypes {
      command := command + "devDependencies ";
    }
    assert command == " --groups " + (a + b);
    if "optionalDependencies" !in depTypes {
      command := command + "optionalDependencies ";
      assert command == " --groups " + (a + b + c);
      WordsOfIncluded(depTypes);
      scan := Some(command);
    } else {
      scan := None;
    }
  }

  /** `scan_deps`: the early returns, the notices, then the `--groups` argument. */
  method ScanDeps(depTypes: seq<string>) returns (scan: Option<string>, notices: seq<Notice>)
    ensures (scan, notices) == ScanDepsAsWritten(depTypes)
  {
    notices := [];
    if |depTypes| == 0 {
      return Some(""), notices;
    }
    if "devDependencies" in depTypes && "dependencies" in depTypes && "optionalDependencies" in depTypes {
      notices := [NothingScanned];
      return Some(""), notices;
    } else if "devDependencies" in depTypes && "dependencies" in depTypes {
      notices := [OnlyOptionalScanned];
    }
    scan := GroupsArgument(depTypes);
  }
}
