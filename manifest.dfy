/**
 * The package.json side of the auto-fix engine: `update_direct_dependency`,
 * and the `fix_direct_dependency` loop around it, identical in
 * lib/salus/scanners/yarn_audit.rb and lib/salus/autofixers/yarn_audit_v2.rb
 * except for what happens to a range
 * the semver regex refuses or a registry answer without versions (V1
 * reports an error and returns, V2 raises `AutofixError`). The parsed
 * package.json is a Hash both copies mutate in place; only its
 * section-to-(name-to-range) hashes are modelled.
 */
module Manifest {
  import opened Wrappers
  import opened VersionPolicy
  import opened Registry
  import opened PathResolver
  import opened FixFeed

  type Sections = map<string, map<string, string>>

  /** `%w[dependencies resolutions devDependencies]`, in that order. */
  const DirectSections: seq<string> := ["dependencies", "resolutions", "devDependencies"]

  const RangeMessagePrefix := "Found unexpected: patched version range: "
  const NoVersionsMessage := "#yarn info command did not provide a list of available package versions"

  /** `packages.dig(section, package)`: the range `section` lists for `package`, if any. */
  function Listed(m: Sections, section: string, package: string): Option<string> {
    if section in m && package in m[section] then Some(m[section][package]) else None
  }

  /**
   * One section of the loop: a listed package whose current range is not a
   * major bump away from `v` gets `"^v"`; `is_major_bump` may raise.
   */
  function BumpSection(m: Sections, section: string, package: string, v: string): Result<Sections> {
    match Listed(m, section, package)
    case None => Ok(m)
    case Some(current) =>
      match IsMajorBump(current, v)
      case Err(f) => Err(f)
      case Ok(bump) => if bump then Ok(m) else Ok(m[section := m[section][package := "^" + v]])
  }

  /** The sections in order, the first raise stopping the loop. */
  function BumpSections(m: Sections, sections: seq<string>, package: string, v: string): Result<Sections>
    decreases |sections|
  {
    if |sections| == 0 then Ok(m)
    else match BumpSection(m, sections[0], package, v)
      case Err(f) => Err(f)
      case Ok(next) => BumpSections(next, sections[1..], package, v)
  }

  /** What the section for one name becomes: `"^v"` when listed and not a major bump. */
  function Bumped(current: Option<string>, v: string): Option<string> {
    if current.Some? && IsMajorBump(current.value, v) == Ok(false) then Some("^" + v) else current
  }

  /** The sections a loop visits are pairwise distinct. */
  predicate DistinctSections(sections: seq<string>) {
    forall i, j :: 0 <= i < j < |sections| ==> sections[i] != sections[j]
  }

  /** A listed entry whose range makes `is_major_bump` raise. */
  predicate RaisesAt(m: Sections, s: string, package: string, v: string) {
    Listed(m, s, package).Some? && IsMajorBump(Listed(m, s, package).value, v).Err?
  }

  /** Outside section `s0`, and for every other name inside it, `m'` agrees with `m`. */
  predicate TouchesOnly(m: Sections, m': Sections, s0: string, package: string) {
    m'.Keys == m.Keys &&
    (forall s :: s in m && s != s0 ==> m'[s] == m[s]) &&
    (s0 in m ==>
      m'[s0].Keys == m[s0].Keys &&
      forall n :: n in m[s0] && n != package ==> m'[s0][n] == m[s0][n])
  }

  /** One section: raises exactly at a raising entry, otherwise rewrites only that entry. */
  lemma BumpSectionStep(m: Sections, s0: string, package: string, v: string)
    ensures BumpSection(m, s0, package, v).Err? <==> RaisesAt(m, s0, package, v)
    ensures BumpSection(m, s0, package, v).Ok? ==>
      var next := BumpSection(m, s0, package, v).value;
      TouchesOnly(m, next, s0, package) &&
      Listed(next, s0, package) == Bumped(Listed(m, s0, package), v) &&
      forall s :: s != s0 ==> Listed(next, s, package) == Listed(m, s, package)
  {
  }

  lemma DistinctTail(sections: seq<string>)
    requires |sections| > 0 && DistinctSections(sections)
    ensures DistinctSections(sections[1..])
    ensures sections[0] !in sections[1..]
  {
    var tail := sections[1..];
    forall i, j | 0 <= i < j < |tail| ensures tail[i] != tail[j] {
      assert tail[i] == sections[i + 1] && tail[j] == sections[j + 1];
    }
    forall i | 0 <= i < |tail| ensures tail[i] != sections[0] {
      assert tail[i] == sections[i + 1];
    }
  }

  /** The loop raises exactly when some visited section lists a raising entry. */
  lemma {:induction false} BumpSectionsRaises(m: Sections, sections: seq<string>, package: string, v: string)
    requires DistinctSections(sections)
    ensures BumpSections(m, sections, package, v).Err? <==>
      exists i :: 0 <= i < |sections| && RaisesAt(m, sections[i], package, v)
    decreases |sections|
  {
    if |sections| > 0 {
      var s0 := sections[0];
      var tail := sections[1..];
      BumpSectionStep(m, s0, package, v);
      DistinctTail(sections);
      var step := BumpSection(m, s0, package, v);
      if step.Ok? {
        var next := step.value;
        BumpSectionsRaises(next, tail, package, v);
        if BumpSections(next, tail, package, v).Err? {
          var i :| 0 <= i < |tail| && RaisesAt(next, tail[i], package, v);
          assert tail[i] != s0;
          assert RaisesAt(m, sections[i + 1], package, v);
        } else {
          forall i | 0 <= i < |sections| ensures !RaisesAt(m, sections[i], package, v) {
            if i > 0 {
              assert sections[i] == tail[i - 1] && sections[i] != s0;
            }
          }
        }
      } else {
        assert RaisesAt(m, sections[0], package, v);
      }
    }
  }

  /** A loop that does not raise leaves the section names and every unvisited section alone. */
  lemma {:induction false} BumpSectionsKeeps(m: Sections, sections: seq<string>, package: string, v: string)
    requires DistinctSections(sections)
    ensures BumpSections(m, sections, package, v).Ok? ==>
      var m' := BumpSections(m, sections, package, v).value;
      m'.Keys == m.Keys &&
      (forall s :: s in m && s !in sections ==> m'[s] == m[s]) &&
      (forall s :: s in m && s in sections ==>
        m'[s].Keys == m[s].Keys &&
        forall n :: n in m[s] && n != package ==> m'[s][n] == m[s][n])
    decreases |sections|
  {
    if |sections| > 0 {
      var s0 := sections[0];
      var tail := sections[1..];
      BumpSectionStep(m, s0, package, v);
      DistinctTail(sections);
      var step := BumpSection(m, s0, package, v);
      if step.Ok? {
        var next := step.value;
        BumpSectionsKeeps(next, tail, package, v);
        forall s | s in sections ensures s == s0 || s in tail {
          var i :| 0 <= i < |sections| && sections[i] == s;
          if i > 0 { assert tail[i - 1] == s; }
        }
      }
    }
  }

  /** A loop that does not raise gives each visited section's entry for `package` its `Bumped` value. */
  lemma {:induction false} BumpSectionsListed(m: Sections, sections: seq<string>, package: string, v: string)
    requires DistinctSections(sections)
    ensures BumpSections(m, sections, package, v).Ok? ==>
      forall s :: s in sections ==>
        Listed(BumpSections(m, sections, package, v).value, s, package) == Bumped(Listed(m, s, package), v)
    ensures BumpSections(m, sections, package, v).Ok? ==>
      forall s :: s !in sections ==>
        Listed(BumpSections(m, sections, package, v).value, s, package) == Listed(m, s, package)
    decreases |sections|
  {
    if |sections| > 0 {
      var s0 := sections[0];
      var tail := sections[1..];
      BumpSectionStep(m, s0, package, v);
      DistinctTail(sections);
      var step := BumpSection(m, s0, package, v);
      if step.Ok? {
        var next := step.value;
        BumpSectionsListed(next, tail, package, v);
        forall s | s in sections ensures s == s0 || s in tail {
          var i :| 0 <= i < |sections| && sections[i] == s;
          if i > 0 { assert tail[i - 1] == s; }
        }
      }
    }
  }

  /**
   * The loop over distinct sections touches only the entry for `package`
   * in those sections: each becomes `"^v"` exactly when it was listed and
   * `is_major_bump(current, v)` is false; every other entry, every other
   * section and the set of sections stay as they were. It raises exactly
   * when some listed entry makes `is_major_bump` raise.
   */
  lemma BumpSectionsEffect(m: Sections, sections: seq<string>, package: string, v: string)
    requires DistinctSections(sections)
    ensures BumpSections(m, sections, package, v).Err? <==>
      exists i :: 0 <= i < |sections| && RaisesAt(m, sections[i], package, v)
    ensures BumpSections(m, sections, package, v).Ok? ==>
      var m' := BumpSections(m, sections, package, v).value;
      m'.Keys == m.Keys &&
      (forall s :: s in m && s !in sections ==> m'[s] == m[s]) &&
      (forall s :: s in m && s in sections ==>
        m'[s].Keys == m[s].Keys &&
        (forall n :: n in m[s] && n != package ==> m'[s][n] == m[s][n]) &&
        Listed(m', s, package) == Bumped(Listed(m, s, package), v))
  {
    BumpSectionsRaises(m, sections, package, v);
    BumpSectionsKeeps(m, sections, package, v);
    BumpSectionsListed(m, sections, package, v);
  }

  /** The outcome of one `update_direct_dependency` call that does not raise. */
  datatype DirectOutcome =
    | Refused(message: string)
    | Updated(sections: Sections)

  /**
   * `update_direct_dependency(package, range)`: a range the semver regex
   * refuses, or a registry answer without `data.versions`, is refused with
   * its message; otherwise an upgrade is selected and, when there is one,
   * written into the sections in order. A failed registry query raises
   * (`nil.dig`).
   */
  function DirectUpdate(env: Env, package: string, range: string, m: Sections): Result<DirectOutcome> {
    if !env.isSemverRange(range) then Ok(Refused(RangeMessagePrefix + range))
    else match DigDataVersions(env.registry(package, None))
      case Err(f) => Err(f)
      case Ok(None) => Ok(Refused(NoVersionsMessage))
      case Ok(Some(versions)) =>
        match env.selectUpgrade(range, Some(versions))
        case None => Ok(Updated(m))
        case Some(v) =>
          match BumpSections(m, DirectSections, package, v)
          case Err(f) => Err(f)
          case Ok(next) => Ok(Updated(next))
  }

  /**
   * A refused range or a missing version list leaves the manifest alone;
   * otherwise only `package`'s entries in the three direct sections can
   * change, each to `"^v"` for the selected `v`, and only where
   * `is_major_bump` says it is not a major bump.
   */
  lemma DirectUpdateEffect(env: Env, package: string, range: string, m: Sections)
    ensures !env.isSemverRange(range) ==> DirectUpdate(env, package, range, m) == Ok(Refused(RangeMessagePrefix + range))
    ensures env.isSemverRange(range) && DigDataVersions(env.registry(package, None)) == Ok(None) ==>
      DirectUpdate(env, package, range, m) == Ok(Refused(NoVersionsMessage))
    ensures DirectUpdate(env, package, range, m).Ok? && DirectUpdate(env, package, range, m).value.Updated? ==>
      var m' := DirectUpdate(env, package, range, m).value.sections;
      m'.Keys == m.Keys &&
      (forall s :: s in m && s !in DirectSections ==> m'[s] == m[s]) &&
      (forall s, n :: s in m && n in m[s] && n != package ==> n in m'[s] && m'[s][n] == m[s][n]) &&
      (forall s :: s in DirectSections && Listed(m, s, package).Some? && Listed(m', s, package) != Listed(m, s, package) ==>
        exists v :: env.selectUpgrade(range, DigDataVersions(env.registry(package, None)).value) == Some(v) &&
          Listed(m', s, package) == Some("^" + v) && IsMajorBump(Listed(m, s, package).value, v) == Ok(false))
  {
    if env.isSemverRange(range) {
      var versions := DigDataVersions(env.registry(package, None));
      if versions.Ok? && versions.value.Some? {
        var selected := env.selectUpgrade(range, versions.value);
        if selected.Some? {
          BumpSectionsEffect(m, DirectSections, package, selected.value);
        }
      }
    }
  }

  /** The manifest and the error messages reported so far. */
  type DirectState = (Sections, seq<string>)

  /**
   * One resolve of `fix_direct_dependency`: only a finding with a usable
   * target whose path is the module name itself is a direct one. A
   * refusal is reported in V1 and raised as `AutofixError` in V2.
   */
  function DirectStep(env: Env, d: Dialect, a: Action, r: Resolve, st: DirectState): Result<DirectState> {
    if Usable(a.target) && a.moduleName == r.path then
      match DirectUpdate(env, a.moduleName, a.target.value, st.0)
      case Err(f) => Err(f)
      case Ok(Refused(message)) => if d == V2 then Err(AutofixError(message)) else Ok((st.0, st.1 + [message]))
      case Ok(Updated(m)) => Ok((m, st.1))
    else Ok(st)
  }

  function DirectOverResolves(env: Env, d: Dialect, a: Action, rs: seq<Resolve>, st: DirectState): Result<DirectState>
    decreases |rs|
  {
    if |rs| == 0 then Ok(st)
    else match DirectStep(env, d, a, rs[0], st)
      case Err(f) => Err(f)
      case Ok(next) => DirectOverResolves(env, d, a, rs[1..], next)
  }

  /** The nested `feed.each` / `resolves.each` loop of `fix_direct_dependency`. */
  function DirectPhase(env: Env, d: Dialect, feed: seq<Action>, st: DirectState): Result<DirectState>
    decreases |feed|
  {
    if |feed| == 0 then Ok(st)
    else match DirectOverResolves(env, d, feed[0], feed[0].resolves, st)
      case Err(f) => Err(f)
      case Ok(next) => DirectPhase(env, d, feed[1..], next)
  }

  function ThenPhase(r: Result<DirectState>, env: Env, d: Dialect, rest: seq<Action>): Result<DirectState> {
    match r
    case Err(f) => Err(f)
    case Ok(st) => DirectPhase(env, d, rest, st)
  }

  predicate IsDirect(a: Action, r: Resolve) {
    Usable(a.target) && a.moduleName == r.path
  }

  lemma {:induction false} IndirectResolvesChangeNothing(env: Env, d: Dialect, a: Action, rs: seq<Resolve>, st: DirectState)
    requires forall k :: 0 <= k < |rs| ==> !IsDirect(a, rs[k])
    ensures DirectOverResolves(env, d, a, rs, st) == Ok(st)
    decreases |rs|
  {
    if |rs| > 0 {
      IndirectResolvesChangeNothing(env, d, a, rs[1..], st);
    }
  }

  /**
   * The direct branch fires only for a resolve whose path equals the
   * module name (with a usable target): a feed with none leaves the
   * manifest and the reports as they were.
   */
  lemma {:induction false} DirectPhaseNeedsDirectFinding(env: Env, d: Dialect, feed: seq<Action>, st: DirectState)
    requires forall i, k :: 0 <= i < |feed| && 0 <= k < |feed[i].resolves| ==> !IsDirect(feed[i], feed[i].resolves[k])
    ensures DirectPhase(env, d, feed, st) == Ok(st)
    decreases |feed|
  {
    if |feed| > 0 {
      IndirectResolvesChangeNothing(env, d, feed[0], feed[0].resolves, st);
      DirectPhaseNeedsDirectFinding(env, d, feed[1..], st);
    }
  }

  lemma {:induction false} DialectsAgreeOnResolves(env: Env, a: Action, rs: seq<Resolve>, st: DirectState)
    ensures DirectOverResolves(env, V2, a, rs, st).Ok? ==> DirectOverResolves(env, V2, a, rs, st).value.1 == st.1
    ensures DirectOverResolves(env, V1, a, rs, st).Ok? && DirectOverResolves(env, V1, a, rs, st).value.1 == st.1 ==>
      DirectOverResolves(env, V2, a, rs, st) == DirectOverResolves(env, V1, a, rs, st)
    ensures DirectOverResolves(env, V2, a, rs, st).Ok? ==>
      DirectOverResolves(env, V1, a, rs, st) == DirectOverResolves(env, V2, a, rs, st)
    decreases |rs|
  {
    if |rs| > 0 {
      var s1 := DirectStep(env, V1, a, rs[0], st);
      var s2 := DirectStep(env, V2, a, rs[0], st);
      if s2.Ok? {
        DialectsAgreeOnResolves(env, a, rs[1..], s2.value);
      }
      if s1.Ok? {
        DialectsAgreeOnResolves(env, a, rs[1..], s1.value);
        ReportsOnlyGrow(env, V1, a, rs[1..], s1.value);
      }
    }
  }

  lemma {:induction false} ReportsOnlyGrow(env: Env, d: Dialect, a: Action, rs: seq<Resolve>, st: DirectState)
    ensures DirectOverResolves(env, d, a, rs, st).Ok? ==>
      |DirectOverResolves(env, d, a, rs, st).value.1| >= |st.1| &&
      DirectOverResolves(env, d, a, rs, st).value.1[..|st.1|] == st.1
    decreases |rs|
  {
    if |rs| > 0 {
      var s1 := DirectStep(env, d, a, rs[0], st);
      if s1.Ok? {
        ReportsOnlyGrow(env, d, a, rs[1..], s1.value);
        assert s1.value.1[..|st.1|] == st.1;
      }
    }
  }

  /**
   * The two error policies compared: V2 never reports, it raises; V2
   * completes exactly where V1 completes without reporting anything, and
   * then with the same manifest.
   */
  lemma {:induction false} DirectPhaseDialects(env: Env, feed: seq<Action>, st: DirectState)
    ensures DirectPhase(env, V2, feed, st).Ok? ==> DirectPhase(env, V2, feed, st).value.1 == st.1
    ensures DirectPhase(env, V1, feed, st).Ok? && DirectPhase(env, V1, feed, st).value.1 == st.1 ==>
      DirectPhase(env, V2, feed, st) == DirectPhase(env, V1, feed, st)
    ensures DirectPhase(env, V2, feed, st).Ok? ==>
      DirectPhase(env, V1, feed, st) == DirectPhase(env, V2, feed, st)
    decreases |feed|
  {
    if |feed| > 0 {
      var a := feed[0];
      DialectsAgreeOnResolves(env, a, a.resolves, st);
      var s1 := DirectOverResolves(env, V1, a, a.resolves, st);
      var s2 := DirectOverResolves(env, V2, a, a.resolves, st);
      if s2.Ok? {
        DirectPhaseDialects(env, feed[1..], s2.value);
      }
      if s1.Ok? {
        ReportsOnlyGrowPhase(env, V1, feed[1..], s1.value);
        ReportsOnlyGrow(env, V1, a, a.resolves, st);
        DirectPhaseDialects(env, feed[1..], s1.value);
      }
    }
  }

  lemma {:induction false} ReportsOnlyGrowPhase(env: Env, d: Dialect, feed: seq<Action>, st: DirectState)
    ensures DirectPhase(env, d, feed, st).Ok? ==>
      |DirectPhase(env, d, feed, st).value.1| >= |st.1| &&
      DirectPhase(env, d, feed, st).value.1[..|st.1|] == st.1
    decreases |feed|
  {
    if |feed| > 0 {
      ReportsOnlyGrow(env, d, feed[0], feed[0].resolves, st);
      var s1 := DirectOverResolves(env, d, feed[0], feed[0].resolves, st);
      if s1.Ok? {
        ReportsOnlyGrowPhase(env, d, feed[1..], s1.value);
        assert s1.value.1[..|st.1|] == st.1;
      }
    }
  }

  /** The parsed package.json Hash, mutated in place by the engine. */
  class PackageJson {
    var sections: Sections

    constructor(sections: Sections)
      ensures this.sections == sections
    {
      this.sections := sections;
    }

    /**
     * The part of `update_direct_dependency` that mutates the Hash: the
     * `%w[dependencies resolutions devDependencies].each` loop for the
     * selected version `v`. On a raise the Hash keeps the sections written
     * so far.
     */
    method BumpDirectSections(package: string, v: string) returns (fault: Option<Fault>)
      modifies this
      ensures var r := BumpSections(old(sections), DirectSections, package, v);
        (fault.None? <==> r.Ok?) && (r.Ok? ==> sections == r.value) && (r.Err? ==> fault == Some(r.fault))
    {
      var i := 0;
      while i < |DirectSections|
        invariant 0 <= i <= |DirectSections|
        invariant BumpSections(old(sections), DirectSections, package, v) == BumpSections(sections, DirectSections[i..], package, v)
      {
        var section := DirectSections[i];
        assert DirectSections[i..][1..] == DirectSections[i + 1..];
        if section in sections && package in sections[section] {
          var current := sections[section][package];
          var bump := IsMajorBump(current, v);
          if bump.Err? {
            return Some(bump.fault);
          }
          if !bump.value {
            sections := sections[section := sections[section][package := "^" + v]];
          }
        }
        i := i + 1;
      }
      return None;
    }

    /**
     * `update_direct_dependency(package, range)` on this Hash. The result is
     * the refusal message, if any (V1 reports it, V2 raises it); the Hash
     * ends up as `DirectUpdate` says.
     */
    method UpdateDirectDependency(env: Env, package: string, range: string) returns (r: Result<Option<string>>)
      modifies this
      ensures var spec := DirectUpdate(env, package, range, old(sections));
        (r.Err? <==> spec.Err?) && (r.Err? ==> r.fault == spec.fault) &&
        (spec.Ok? && spec.value.Refused? ==> r == Ok(Some(spec.value.message)) && sections == old(sections)) &&
        (spec.Ok? && spec.value.Updated? ==> r == Ok(None) && sections == spec.value.sections)
    {
      if !env.isSemverRange(range) {
        return Ok(Some(RangeMessagePrefix + range));
      }
      var versions := DigDataVersions(env.registry(package, None));
      if versions.Err? {
        return Err(versions.fault);
      }
      if versions.value.None? {
        return Ok(Some(NoVersionsMessage));
      }
      var patched := env.selectUpgrade(range, versions.value);
      if patched.Some? {
        var fault := BumpDirectSections(package, patched.value);
        if fault.Some? {
          return Err(fault.value);
        }
      }
      return Ok(None);
    }

    /**
     * The nested loop of `fix_direct_dependency` over this Hash: every
     * direct finding calls `update_direct_dependency`; V1 collects the
     * refusal messages, V2 raises on the first one.
     */
    method ApplyDirectFixes(env: Env, d: Dialect, feed: seq<Action>) returns (fault: Option<Fault>, reports: seq<string>)
      modifies this
      ensures var r := DirectPhase(env, d, feed, (old(sections), []));
        (fault.None? <==> r.Ok?) && (r.Ok? ==> sections == r.value.0 && reports == r.value.1) &&
        (r.Err? ==> fault == Some(r.fault))
    {
      reports := [];
      var i := 0;
      while i < |feed|
        invariant 0 <= i <= |feed|
        invariant DirectPhase(env, d, feed, (old(sections), [])) == DirectPhase(env, d, feed[i..], (sections, reports))
      {
        var a := feed[i];
        assert feed[i..][1..] == feed[i + 1..];
        var j := 0;
        while j < |a.resolves|
          invariant 0 <= j <= |a.resolves|
          invariant DirectPhase(env, d, feed, (old(sections), [])) ==
            ThenPhase(DirectOverResolves(env, d, a, a.resolves[j..], (sections, reports)), env, d, feed[i + 1..])
        {
          var r := a.resolves[j];
          assert a.resolves[j..][1..] == a.resolves[j + 1..];
          if Usable(a.target) && a.moduleName == r.path {
            var outcome := UpdateDirectDependency(env, a.moduleName, a.target.value);
            if outcome.Err? {
              return Some(outcome.fault), reports;
            }
            if outcome.value.Some? {
              if d == V2 {
                return Some(AutofixError(outcome.value.value)), reports;
              }
              reports := reports + [outcome.value.value];
            }
          }
          j := j + 1;
        }
        i := i + 1;
      }
      return None, reports;
    }
  }
}
