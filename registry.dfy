/**
 * The collaborators whose code is not part of this model, passed in as
 * values: the package registry behind `get_package_info` (`yarn info` /
 * `yarn npm info`, nil when the call or its JSON fails),
 * `Salus::SemanticVersion.select_upgrade_version`, the test against
 * `Salus::SemanticVersion::SEMVER_RANGE_REGEX`, and
 * `Salus::YarnLockfileFormatter#format`.
 */
module Registry {
  import opened Wrappers
  import opened Lockfile

  /** The three fields of `dist`, each nil when the registry leaves it out. */
  datatype Dist = Dist(tarball: Option<string>, shasum: Option<string>, integrity: Option<string>)

  /** The fields the auto-fixer reads from one level of the registry's JSON. */
  datatype Payload = Payload(versions: Option<seq<string>>, dist: Option<Dist>)

  /** The registry's JSON: its top level, and the object under `data` if there is one. */
  datatype Info = Info(top: Payload, data: Option<Payload>)

  datatype Env = Env(
    registry: (string, Option<string>) -> Option<Info>,
    selectUpgrade: (string, Option<seq<string>>) -> Option<string>,
    isSemverRange: string -> bool,
    formatLock: string -> ParsedLock)

  /** `info["data"]["versions"]`: raises on a failed query or a missing `data`. */
  function DataVersions(info: Option<Info>): (r: Result<Option<seq<string>>>)
    ensures r.Ok? <==> info.Some? && info.value.data.Some?
  {
    if info.None? then Err(NilAccess("registry info"))
    else if info.value.data.None? then Err(NilAccess("data"))
    else Ok(info.value.data.value.versions)
  }

  /** `info["versions"]`: raises only on a failed query. */
  function TopVersions(info: Option<Info>): (r: Result<Option<seq<string>>>)
    ensures r.Ok? <==> info.Some?
  {
    if info.None? then Err(NilAccess("registry info")) else Ok(info.value.top.versions)
  }

  /** `info.dig("data", "versions")`: nil when either level is missing; raises on a failed query. */
  function DigDataVersions(info: Option<Info>): (r: Result<Option<seq<string>>>)
    ensures r.Ok? <==> info.Some?
    ensures r.Ok? && r.value.Some? ==> info.value.data.Some? && info.value.data.value.versions == r.value
  {
    if info.None? then Err(NilAccess("registry info"))
    else if info.value.data.None? then Ok(None)
    else Ok(info.value.data.value.versions)
  }

  /** `info["data"]["dist"]`. */
  function DataDist(info: Info): (r: Result<Dist>)
    ensures r.Ok? <==> info.data.Some? && info.data.value.dist.Some?
  {
    if info.data.None? then Err(NilAccess("data"))
    else if info.data.value.dist.None? then Err(NilAccess("dist"))
    else Ok(info.data.value.dist.value)
  }

  /** `info["dist"]`. */
  function TopDist(info: Info): (r: Result<Dist>)
    ensures r.Ok? <==> info.top.dist.Some?
  {
    if info.top.dist.None? then Err(NilAccess("dist")) else Ok(info.top.dist.value)
  }
}
