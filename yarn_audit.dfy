/**
 * The auto-fix pipeline of the legacy scanner in
 * lib/salus/scanners/yarn_audit.rb: `run_auto_fix` runs
 * `fix_indirect_dependency` (both yarn.lock passes over the blocks of the
 * repository's yarn.lock) and then `fix_direct_dependency` (package.json),
 * and turns any exception into one reported error. The files the scanner
 * writes are modelled as fields holding their content.
 */
module YarnAudit {
  import opened Wrappers
  import opened RubyStrings
  import opened Lockfile
  import opened PathResolver
  import opened Registry
  import opened FixFeed
  import opened PatchEngine
  import opened Manifest

  /** What the auto-fix hands to `report_error`: a refused direct range, or the rescued exception. */
  datatype Report =
    | Refusal(message: string)
    | Rescued(fault: Fault)

  /** The content of the two files the auto-fix writes, and the errors it reports. */
  datatype AutoFixOutcome = AutoFixOutcome(lockfile: Option<string>, manifest: Option<Sections>, reports: seq<Report>)

  function Refusals(messages: seq<string>): (r: seq<Report>)
    ensures |r| == |messages| && forall k :: 0 <= k < |r| ==> r[k] == Refusal(messages[k])
  {
    if |messages| == 0 then [] else [Refusal(messages[0])] + Refusals(messages[1..])
  }

  /**
   * `fix_indirect_dependency`: the parsed lockfile, the mappings of the
   * indirect findings, Pass A and then Pass B over the blocks of
   * `yarnLock`; the result is the updated parsed lockfile and the text of
   * yarn-autofixed.lock.
   */
  function IndirectFix(env: Env, feed: seq<Action>, yarnLock: string): Result<(ParsedLock, string)> {
    var lock := env.formatLock(yarnLock);
    var groups := Groups(CollectMappings(feed, lock, V1));
    match PassA(env, V1, groups, Blocks(yarnLock))
    case Err(f) => Err(f)
    case Ok(afterA) =>
      match PassB(env, V1, groups, afterA, lock)
      case Err(f) => Err(f)
      case Ok((afterB, updated)) => Ok((updated, Join(afterB, "\n")))
  }

  /**
   * `run_auto_fix(feed)`: the indirect fix first; an exception there stops
   * everything and is reported; otherwise the direct fix, whose refusals
   * are reported and whose exception is reported in their place.
   */
  function AutoFix(env: Env, feed: seq<Action>, yarnLock: string, manifest: Sections): AutoFixOutcome {
    match IndirectFix(env, feed, yarnLock)
    case Err(f) => AutoFixOutcome(None, None, [Rescued(f)])
    case Ok((_, text)) =>
      match DirectPhase(env, V1, feed, (manifest, []))
      case Err(f) => AutoFixOutcome(Some(text), None, [Rescued(f)])
      case Ok((m, messages)) => AutoFixOutcome(Some(text), Some(m), Refusals(messages))
  }

  /**
   * A feed without indirect findings leaves the yarn.lock blocks alone:
   * the lockfile written is the blocks of yarn.lock joined back, which is
   * yarn.lock itself unless it ends in a blank line.
   */
  lemma IndirectFixWithoutIndirectFindings(env: Env, feed: seq<Action>, yarnLock: string)
    requires forall i, k :: 0 <= i < |feed| && 0 <= k < |feed[i].resolves| ==> !IsIndirect(feed[i], feed[i].resolves[k])
    ensures IndirectFix(env, feed, yarnLock) == Ok((env.formatLock(yarnLock), Join(Blocks(yarnLock), "\n")))
    ensures RawBlocks(yarnLock)[|RawBlocks(yarnLock)| - 1] != "" ==>
      IndirectFix(env, feed, yarnLock) == Ok((env.formatLock(yarnLock), yarnLock))
  {
    NoIndirectFindingNoMappings(feed, env.formatLock(yarnLock), V1);
    IndirectFixWithoutMappings(env, feed, yarnLock);
    KeptBlocksGiveBackText(IndirectFix(env, feed, yarnLock), env.formatLock(yarnLock), yarnLock);
  }

  /** Blocks joined back with newlines are the original text when it does not end in a blank line. */
  lemma KeptBlocksGiveBackText(r: Result<(ParsedLock, string)>, lock: ParsedLock, yarnLock: string)
    requires r == Ok((lock, Join(Blocks(yarnLock), "\n")))
    ensures RawBlocks(yarnLock)[|RawBlocks(yarnLock)| - 1] != "" ==> r == Ok((lock, yarnLock))
  {
    if RawBlocks(yarnLock)[|RawBlocks(yarnLock)| - 1] != "" {
      BlocksRoundTrip(yarnLock);
    }
  }

  /** With no mapping collected there is no group, and both passes hand the blocks and the parsed lockfile back unchanged. */
  lemma IndirectFixWithoutMappings(env: Env, feed: seq<Action>, yarnLock: string)
    requires CollectMappings(feed, env.formatLock(yarnLock), V1) == []
    ensures IndirectFix(env, feed, yarnLock) == Ok((env.formatLock(yarnLock), Join(Blocks(yarnLock), "\n")))
  {
    var lock := env.formatLock(yarnLock);
    var parts := Blocks(yarnLock);
    assert Groups([]) == [];
    assert PassA(env, V1, [], parts) == Ok(parts);
    assert PassB(env, V1, [], parts, lock) == Ok((parts, lock));
  }

  /**
   * A feed whose every target is nil or "No patch available" changes
   * nothing: yarn.lock is written back block for block, package.json as
   * it was parsed, and nothing is reported.
   */
  lemma AutoFixWithoutUsableTargets(env: Env, feed: seq<Action>, yarnLock: string, manifest: Sections)
    requires forall i :: 0 <= i < |feed| ==> !Usable(feed[i].target)
    ensures AutoFix(env, feed, yarnLock, manifest) == AutoFixOutcome(Some(Join(Blocks(yarnLock), "\n")), Some(manifest), [])
  {
    forall i, k | 0 <= i < |feed| && 0 <= k < |feed[i].resolves|
      ensures !IsIndirect(feed[i], feed[i].resolves[k]) && !IsDirect(feed[i], feed[i].resolves[k])
    {
    }
    IndirectFixWithoutIndirectFindings(env, feed, yarnLock);
    DirectPhaseNeedsDirectFinding(env, V1, feed, (manifest, []));
  }

  /**
   * The order of `run_auto_fix`: an exception in the indirect fix means
   * neither file is written and the only report recorded is that
   * exception (registry-failure reports are not recorded); when
   * the indirect fix succeeds, the lockfile is written whatever the
   * direct fix does.
   */
  lemma AutoFixOrder(env: Env, feed: seq<Action>, yarnLock: string, manifest: Sections)
    ensures IndirectFix(env, feed, yarnLock).Err? ==>
      AutoFix(env, feed, yarnLock, manifest) == AutoFixOutcome(None, None, [Rescued(IndirectFix(env, feed, yarnLock).fault)])
    ensures IndirectFix(env, feed, yarnLock).Ok? ==>
      AutoFix(env, feed, yarnLock, manifest).lockfile == Some(IndirectFix(env, feed, yarnLock).value.1)
    ensures AutoFix(env, feed, yarnLock, manifest).manifest.Some? <==>
      IndirectFix(env, feed, yarnLock).Ok? && DirectPhase(env, V1, feed, (manifest, [])).Ok?
  {
  }

  /**
   * The legacy scanner's auto-fix state: the repository's yarn.lock text
   * and parsed package.json, the `@parsed_yarn_lock` and `@packages`
   * fields, the errors reported and the content of the two files written.
   */
  class YarnAuditScanner {
    const yarnLock: string
    const packageJson: Sections
    var parsedLock: ParsedLock
    var packages: PackageJson
    var errors: seq<Report>
    var yarnAutofixed: Option<string>
    var packageAutofixed: Option<Sections>

    constructor(yarnLock: string, packageJson: Sections)
      ensures this.yarnLock == yarnLock && this.packageJson == packageJson
      ensures parsedLock == [] && errors == [] && yarnAutofixed.None? && packageAutofixed.None?
      ensures fresh(packages)
    {
      this.yarnLock := yarnLock;
      this.packageJson := packageJson;
      parsedLock := [];
      packages := new PackageJson(packageJson);
      errors := [];
      yarnAutofixed := None;
      packageAutofixed := None;
    }

    /** `fix_indirect_dependency(feed)`: both passes over the blocks, then yarn-autofixed.lock. */
    method FixIndirectDependency(env: Env, feed: seq<Action>) returns (fault: Option<Fault>)
      modifies this
      ensures packages == old(packages) && errors == old(errors) && packageAutofixed == old(packageAutofixed)
      ensures var r := IndirectFix(env, feed, yarnLock);
        (fault.None? <==> r.Ok?) &&
        (r.Ok? ==> parsedLock == r.value.0 && yarnAutofixed == Some(r.value.1)) &&
        (r.Err? ==> fault == Some(r.fault) && yarnAutofixed == old(yarnAutofixed))
    {
      parsedLock := env.formatLock(yarnLock);
      var mappings := CollectSubparentMappings(feed, parsedLock, V1);
      var blocks := Blocks(yarnLock);
      var parts := new string[|blocks|](k requires 0 <= k < |blocks| => blocks[k]);
      assert parts[..] == blocks;
      fault := UpdatePackageDefinition(env, V1, mappings, parts);
      if fault.Some? {
        return;
      }
      var updated;
      fault, updated := UpdateSubParentResolution(env, V1, mappings, parts, parsedLock);
      if fault.Some? {
        return;
      }
      parsedLock := updated;
      yarnAutofixed := Some(Join(parts[..], "\n"));
    }

    /** `fix_direct_dependency(feed)`: parse package.json, fix the direct findings, then package-autofixed.json. */
    method FixDirectDependency(env: Env, feed: seq<Action>) returns (fault: Option<Fault>)
      modifies this
      ensures parsedLock == old(parsedLock) && yarnAutofixed == old(yarnAutofixed)
      ensures fresh(packages)
      ensures var r := DirectPhase(env, V1, feed, (packageJson, []));
        (fault.None? <==> r.Ok?) &&
        (r.Ok? ==>
          packages.sections == r.value.0 && packageAutofixed == Some(r.value.0) &&
          errors == old(errors) + Refusals(r.value.1)) &&
        (r.Err? ==>
          fault == Some(r.fault) && packageAutofixed == old(packageAutofixed) &&
          |errors| >= |old(errors)| && errors[..|old(errors)|] == old(errors))
    {
      packages := new PackageJson(packageJson);
      var messages;
      fault, messages := packages.ApplyDirectFixes(env, V1, feed);
      errors := errors + Refusals(messages);
      if fault.None? {
        packageAutofixed := Some(packages.sections);
      }
    }

    /** `run_auto_fix(feed)`: indirect, then direct, any exception rescued into one report. */
    method RunAutoFix(env: Env, feed: seq<Action>)
      modifies this
      ensures var o := AutoFix(env, feed, yarnLock, packageJson);
        (o.lockfile.Some? ==> yarnAutofixed == o.lockfile) &&
        (o.lockfile.None? ==> yarnAutofixed == old(yarnAutofixed)) &&
        (o.manifest.Some? ==> packageAutofixed == o.manifest && errors == old(errors) + o.reports) &&
        (o.manifest.None? ==>
          packageAutofixed == old(packageAutofixed) &&
          |errors| > |old(errors)| && errors[..|old(errors)|] == old(errors) && errors[|errors| - 1] == o.reports[0])
    {
      var fault := FixIndirectDependency(env, feed);
      if fault.Some? {
        errors := errors + [Rescued(fault.value)];
        return;
      }
      fault := FixDirectDependency(env, feed);
      if fault.Some? {
        errors := errors + [Rescued(fault.value)];
      }
    }
  }
}
