/**
 * The standalone autofixer of lib/salus/autofixers/yarn_audit_v2.rb. Its
 * `run_auto_fix` runs `fix_indirect_dependency`, which only collects the
 * mappings (the yarn.lock passes and the lockfile write are commented
 * out), and then `fix_direct_dependency`, which raises `AutofixError` on a
 * refused range; nothing is rescued. Its passes are the `V2` dialect of
 * module PatchEngine.
 */
module YarnAuditV2 {
  import opened Wrappers
  import opened Lockfile
  import opened PathResolver
  import opened Registry
  import opened FixFeed
  import opened Manifest
  import YarnAudit

  /** What `run_auto_fix` leaves in package-autofixed.json, or the exception it raises. */
  function AutoFixV2(env: Env, feed: seq<Action>, manifest: Sections): Result<Sections> {
    match DirectPhase(env, V2, feed, (manifest, []))
    case Err(f) => Err(f)
    case Ok((m, _)) => Ok(m)
  }

  /**
   * The two copies compared on the manifest: V2 writes package.json
   * exactly when the legacy scanner completes both phases without
   * reporting anything, and then writes the same content.
   */
  lemma AutoFixV2AgreesWithLegacy(env: Env, feed: seq<Action>, yarnLock: string, manifest: Sections)
    requires YarnAudit.IndirectFix(env, feed, yarnLock).Ok?
    ensures AutoFixV2(env, feed, manifest).Ok? <==>
      YarnAudit.AutoFix(env, feed, yarnLock, manifest).manifest.Some? && YarnAudit.AutoFix(env, feed, yarnLock, manifest).reports == []
    ensures AutoFixV2(env, feed, manifest).Ok? ==>
      YarnAudit.AutoFix(env, feed, yarnLock, manifest).manifest == Some(AutoFixV2(env, feed, manifest).value)
  {
    DirectPhaseDialects(env, feed, (manifest, []));
  }

  /** A refused range in V2 is the exception `AutofixError` carrying the message V1 would report. */
  lemma RefusalRaises(env: Env, a: Action, r: Resolve, st: DirectState)
    requires IsDirect(a, r)
    requires DirectUpdate(env, a.moduleName, a.target.value, st.0).Ok?
    requires DirectUpdate(env, a.moduleName, a.target.value, st.0).value.Refused?
    ensures DirectStep(env, V2, a, r, st) == Err(AutofixError(DirectUpdate(env, a.moduleName, a.target.value, st.0).value.message))
    ensures DirectStep(env, V1, a, r, st) == Ok((st.0, st.1 + [DirectUpdate(env, a.moduleName, a.target.value, st.0).value.message]))
  {
  }

  /** `YarnAuditV2`: the repository path and the content of package-autofixed.json once written. */
  class YarnAuditV2 {
    const pathToRepo: string
    var packageAutofixed: Option<Sections>

    constructor(pathToRepo: string)
      ensures this.pathToRepo == pathToRepo && packageAutofixed.None?
    {
      this.pathToRepo := pathToRepo;
      packageAutofixed := None;
    }

    /**
     * `fix_indirect_dependency(feed, yarn_lock, path_to_repo)`: only the
     * mappings are collected; no state changes and no file is written.
     */
    method FixIndirectDependency(env: Env, feed: seq<Action>, yarnLock: string) returns (mappings: seq<Mapping>)
      ensures mappings == CollectMappings(feed, env.formatLock(yarnLock), V2)
      ensures forall m :: m in mappings ==>
        exists i, k :: 0 <= i < |feed| && 0 <= k < |feed[i].resolves| &&
          Contributes(feed[i], feed[i].resolves[k], env.formatLock(yarnLock), V2, m)
    {
      var parsed := env.formatLock(yarnLock);
      mappings := CollectSubparentMappings(feed, parsed, V2);
      CollectMappingsExact(feed, parsed, V2);
    }

    /** `fix_direct_dependency(feed, package_json, path_to_repo)`: raises on the first refusal. */
    method FixDirectDependency(env: Env, feed: seq<Action>, packageJson: Sections) returns (fault: Option<Fault>)
      modifies this
      ensures var r := AutoFixV2(env, feed, packageJson);
        (fault.None? <==> r.Ok?) &&
        (r.Ok? ==> packageAutofixed == Some(r.value)) &&
        (r.Err? ==> fault == Some(r.fault) && packageAutofixed == old(packageAutofixed))
    {
      var packages := new PackageJson(packageJson);
      var reports;
      fault, reports := packages.ApplyDirectFixes(env, V2, feed);
      if fault.None? {
        packageAutofixed := Some(packages.sections);
      }
    }

    /** `run_auto_fix(feed, path_to_repo, package_json, yarn_lock)`: an exception propagates to the caller. */
    method RunAutoFix(env: Env, feed: seq<Action>, packageJson: Sections, yarnLock: string) returns (fault: Option<Fault>)
      modifies this
      ensures var r := AutoFixV2(env, feed, packageJson);
        (fault.None? <==> r.Ok?) &&
        (r.Ok? ==> packageAutofixed == Some(r.value)) &&
        (r.Err? ==> fault == Some(r.fault) && packageAutofixed == old(packageAutofixed))
    {
      var mappings := FixIndirectDependency(env, feed, yarnLock);
      fault := FixDirectDependency(env, feed, packageJson);
    }
  }
}
