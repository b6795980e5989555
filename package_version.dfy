/**
 * lib/salus/scanners/package_version/ruby_package_version_scanner.rb: the
 * gem versions of a Gemfile.lock, held in a name-to-version map, checked
 * against a configured minimum, maximum and list of blocked versions. Each
 * failed check appends one error report.
 */
module PackageVersion {
  import opened Wrappers

  /** A version as its numeric segments, `1.2.3` being `[1, 2, 3]`. */
  type Version = seq<nat>

  /**
   * `Gem::Version#canonical_segments` of a numeric version: the segments
   * without their trailing zeros, so `1.0` and `1.0.0` both give `[1]`.
   */
  function Canon(v: Version): Version
    decreases |v|
  {
    if |v| == 0 then []
    else if v[|v| - 1] == 0 then Canon(v[..|v| - 1])
    else v
  }

  /** The canonical segments are a prefix of the version that ends in a non-zero segment; only zeros are dropped. */
  lemma {:induction false} CanonShape(v: Version)
    ensures var r := Canon(v); |r| <= |v| && r == v[..|r|]
    ensures var r := Canon(v); |r| == 0 || r[|r| - 1] != 0
    ensures var r := Canon(v); forall k :: |r| <= k < |v| ==> v[k] == 0
    decreases |v|
  {
    if |v| > 0 && v[|v| - 1] == 0 {
      var init := v[..|v| - 1];
      CanonShape(init);
      var r := Canon(init);
      assert init[..|r|] == v[..|r|];
    } else if |v| > 0 {
      assert v[..|v|] == v;
    }
  }

  /** `n` zero segments. */
  function Zeros(n: nat): (r: Version)
    ensures |r| == n && forall k :: 0 <= k < n ==> r[k] == 0
  {
    seq(n, _ => 0)
  }

  /** Segment by segment, a list that runs out first being the smaller. */
  predicate SegmentsLess(a: Version, b: Version)
    decreases |a|
  {
    if |a| == 0 then |b| > 0
    else if |b| == 0 then false
    else a[0] < b[0] || (a[0] == b[0] && SegmentsLess(a[1..], b[1..]))
  }

  /** `a <=> b` is 0: the same canonical segments (`Comparable#==` of `Gem::Version`). */
  predicate Same(a: Version, b: Version) {
    Canon(a) == Canon(b)
  }

  /** `a < b` for `Gem::Version`: the canonical segments compared in order. */
  predicate Less(a: Version, b: Version) {
    SegmentsLess(Canon(a), Canon(b))
  }

  /** Trailing zero segments change neither equality nor order: `1.0 == 1.0.0`. */
  lemma {:induction false} PaddingIgnored(a: Version, n: nat)
    ensures Canon(a + Zeros(n)) == Canon(a)
    ensures Same(a + Zeros(n), a)
    decreases n
  {
    if n > 0 {
      var padded := a + Zeros(n);
      assert padded[|padded| - 1] == 0;
      assert padded[..|padded| - 1] == a + Zeros(n - 1);
      PaddingIgnored(a, n - 1);
    } else {
      assert a + Zeros(n) == a;
    }
  }

  lemma {:induction false} SegmentsLessIrreflexive(a: Version)
    ensures !SegmentsLess(a, a)
    decreases |a|
  {
    if |a| > 0 {
      SegmentsLessIrreflexive(a[1..]);
    }
  }

  lemma {:induction false} SegmentsLessTransitive(a: Version, b: Version, c: Version)
    requires SegmentsLess(a, b) && SegmentsLess(b, c)
    ensures SegmentsLess(a, c)
    decreases |a|
  {
    if |a| > 0 && a[0] == b[0] && b[0] == c[0] {
      SegmentsLessTransitive(a[1..], b[1..], c[1..]);
    }
  }

  lemma {:induction false} SegmentsLessTrichotomy(a: Version, b: Version)
    ensures SegmentsLess(a, b) || a == b || SegmentsLess(b, a)
    ensures !(SegmentsLess(a, b) && SegmentsLess(b, a))
    decreases |a|
  {
    if |a| > 0 && |b| > 0 && a[0] == b[0] {
      SegmentsLessTrichotomy(a[1..], b[1..]);
      if a[1..] == b[1..] {
        assert a == [a[0]] + a[1..] && b == [b[0]] + b[1..];
      }
    }
  }

  lemma LessIrreflexive(a: Version)
    ensures !Less(a, a)
  {
    SegmentsLessIrreflexive(Canon(a));
  }

  lemma LessTransitive(a: Version, b: Version, c: Version)
    requires Less(a, b) && Less(b, c)
    ensures Less(a, c)
  {
    SegmentsLessTransitive(Canon(a), Canon(b), Canon(c));
  }

  /** Any two versions are the same or one is the smaller, and never both ways. */
  lemma LessTrichotomy(a: Version, b: Version)
    ensures Less(a, b) || Same(a, b) || Less(b, a)
    ensures !(Less(a, b) && Less(b, a))
    ensures Same(a, b) ==> !Less(a, b) && !Less(b, a)
  {
    SegmentsLessTrichotomy(Canon(a), Canon(b));
    if Same(a, b) {
      SegmentsLessIrreflexive(Canon(a));
    }
  }

  /** The three error reports, with the package, the repository's version and the configured one. */
  datatype Violation =
    | BelowMinimum(package: string, repo: Version, min: Version)
    | AboveMaximum(package: string, repo: Version, max: Version)
    | MatchesBlocked(package: string, repo: Version, blocked: Version)

  /** Which check produced a report, in the order `check_for_violations` runs them. */
  function Rank(v: Violation): nat {
    match v
    case BelowMinimum(_, _, _) => 0
    case AboveMaximum(_, _, _) => 1
    case MatchesBlocked(_, _, _) => 2
  }

  /** `generate_dependency_hash`: `deps[gem.name] = gem.version` for every spec in turn. */
  function DependencyMap(specs: seq<(string, Version)>): map<string, Version> {
    if |specs| == 0 then map[]
    else DependencyMap(specs[..|specs| - 1])[specs[|specs| - 1].0 := specs[|specs| - 1].1]
  }

  /** A gem is in the map iff some spec names it, and its version is the one of its last spec. */
  lemma {:induction false} DependencyMapLastWins(specs: seq<(string, Version)>, name: string)
    ensures name in DependencyMap(specs) <==> exists i :: 0 <= i < |specs| && specs[i].0 == name
    ensures name in DependencyMap(specs) ==>
      (exists i :: 0 <= i < |specs| && specs[i] == (name, DependencyMap(specs)[name]) &&
        (forall j :: i < j < |specs| ==> specs[j].0 != name))
    decreases |specs|
  {
    if |specs| > 0 {
      var init := specs[..|specs| - 1];
      DependencyMapLastWins(init, name);
      if specs[|specs| - 1].0 != name {
        if name in DependencyMap(init) {
          var i :| 0 <= i < |init| && init[i] == (name, DependencyMap(init)[name]) &&
            (forall j :: i < j < |init| ==> init[j].0 != name);
          assert specs[i] == init[i];
        }
        if exists i :: 0 <= i < |specs| && specs[i].0 == name {
          var i :| 0 <= i < |specs| && specs[i].0 == name;
          assert init[i].0 == name;
        }
      }
    }
  }

  /** `check_min_version`, run when a minimum is given. */
  function MinViolations(name: string, repo: Version, min: Option<Version>): (r: seq<Violation>)
    ensures |r| <= 1
    ensures |r| == 1 <==> min.Some? && Less(repo, min.value)
    ensures |r| == 1 ==> r[0] == BelowMinimum(name, repo, min.value)
  {
    if min.Some? && Less(repo, min.value) then [BelowMinimum(name, repo, min.value)] else []
  }

  /** `check_max_version`, run when a maximum is given. */
  function MaxViolations(name: string, repo: Version, max: Option<Version>): (r: seq<Violation>)
    ensures |r| <= 1
    ensures |r| == 1 <==> max.Some? && Less(max.value, repo)
    ensures |r| == 1 ==> r[0] == AboveMaximum(name, repo, max.value)
  {
    if max.Some? && Less(max.value, repo) then [AboveMaximum(name, repo, max.value)] else []
  }

  /** The canonical segments of every version. */
  function Canons(vs: seq<Version>): (r: seq<Version>)
    ensures |r| == |vs| && forall k :: 0 <= k < |vs| ==> r[k] == Canon(vs[k])
  {
    seq(|vs|, k requires 0 <= k < |vs| => Canon(vs[k]))
  }

  /**
   * `check_blocked_versions`: one report per blocked entry that is the same
   * version as the repository's, carrying that entry, in list order.
   */
  function BlockedViolations(name: string, repo: Version, blocked: seq<Version>): (r: seq<Violation>)
    ensures |r| == multiset(Canons(blocked))[Canon(repo)]
    ensures forall k :: 0 <= k < |r| ==>
      r[k].MatchesBlocked? && r[k].package == name && r[k].repo == repo &&
      Same(repo, r[k].blocked) && r[k].blocked in blocked
  {
    if |blocked| == 0 then []
    else
      var init := blocked[..|blocked| - 1];
      var last := blocked[|blocked| - 1];
      assert blocked == init + [last];
      assert Canons(blocked) == Canons(init) + [Canon(last)];
      BlockedViolations(name, repo, init) + (if Same(repo, last) then [MatchesBlocked(name, repo, last)] else [])
  }

  /** The reports `check_for_violations` adds for one configured package. */
  function Violations(deps: map<string, Version>, name: string, min: Option<Version>, max: Option<Version>,
                      blocked: seq<Version>): seq<Violation>
  {
    if name !in deps then []
    else
      var repo := deps[name];
      MinViolations(name, repo, min) + MaxViolations(name, repo, max) +
      (if |blocked| > 0 then BlockedViolations(name, repo, blocked) else [])
  }

  /** The three checks of a listed dependency, run in order, append exactly `Violations`. */
  lemma ViolationsInSteps(deps: map<string, Version>, name: string, min: Option<Version>, max: Option<Version>,
                          blocked: seq<Version>, start: seq<Violation>, afterMin: seq<Violation>,
                          afterMax: seq<Violation>, done: seq<Violation>)
    requires name in deps
    requires afterMin == start + MinViolations(name, deps[name], min)
    requires afterMax == afterMin + MaxViolations(name, deps[name], max)
    requires done == afterMax + (if |blocked| > 0 then BlockedViolations(name, deps[name], blocked) else [])
    ensures done == start + Violations(deps, name, min, max, blocked)
  {
    var a := MinViolations(name, deps[name], min);
    var b := MaxViolations(name, deps[name], max);
    var c := if |blocked| > 0 then BlockedViolations(name, deps[name], blocked) else [];
    assert Violations(deps, name, min, max, blocked) == a + b + c;
    AppendInSteps(start, a, b, c);
  }

  lemma AppendInSteps(start: seq<Violation>, a: seq<Violation>, b: seq<Violation>, c: seq<Violation>)
    ensures start + a + b + c == start + (a + b + c)
  {
  }

  predicate HasBelowMinimum(r: seq<Violation>) {
    exists k :: 0 <= k < |r| && r[k].BelowMinimum?
  }

  predicate HasAboveMaximum(r: seq<Violation>) {
    exists k :: 0 <= k < |r| && r[k].AboveMaximum?
  }

  /** A package absent from the map gets no report; every report names the package and its version. */
  lemma ReportsAboutThePackage(deps: map<string, Version>, name: string, min: Option<Version>, max: Option<Version>,
                               blocked: seq<Version>)
    ensures name !in deps ==> Violations(deps, name, min, max, blocked) == []
    ensures var r := Violations(deps, name, min, max, blocked);
      forall k :: 0 <= k < |r| ==> r[k].package == name && name in deps && r[k].repo == deps[name]
  {
    if name in deps {
      var repo := deps[name];
      var a := MinViolations(name, repo, min);
      var b := MaxViolations(name, repo, max);
      var c := if |blocked| > 0 then BlockedViolations(name, repo, blocked) else [];
      var r := a + b + c;
      forall k | 0 <= k < |r| ensures r[k].package == name && r[k].repo == repo {
        if k >= |a| + |b| {
          assert r[k] == c[k - |a| - |b|];
        } else if k >= |a| {
          assert r[k] == b[k - |a|];
        }
      }
    }
  }

  /** A "less than minimum" report comes exactly when a minimum is given and the version is below it. */
  lemma MinReportIff(deps: map<string, Version>, name: string, min: Option<Version>, max: Option<Version>,
                     blocked: seq<Version>)
    ensures HasBelowMinimum(Violations(deps, name, min, max, blocked)) <==>
      name in deps && min.Some? && Less(deps[name], min.value)
  {
    if name in deps {
      var repo := deps[name];
      var a := MinViolations(name, repo, min);
      var b := MaxViolations(name, repo, max);
      var c := if |blocked| > 0 then BlockedViolations(name, repo, blocked) else [];
      var r := a + b + c;
      if |a| == 1 {
        assert r[0] == a[0];
      }
      forall k | |a| <= k < |r| ensures !r[k].BelowMinimum? {
        assert r[k] == (b + c)[k - |a|];
      }
    }
  }

  /** A "greater than maximum" report comes exactly when a maximum is given and the version is above it. */
  lemma MaxReportIff(deps: map<string, Version>, name: string, min: Option<Version>, max: Option<Version>,
                     blocked: seq<Version>)
    ensures HasAboveMaximum(Violations(deps, name, min, max, blocked)) <==>
      name in deps && max.Some? && Less(max.value, deps[name])
  {
    if name in deps {
      var repo := deps[name];
      var a := MinViolations(name, repo, min);
      var b := MaxViolations(name, repo, max);
      var c := if |blocked| > 0 then BlockedViolations(name, repo, blocked) else [];
      var r := a + b + c;
      if |b| == 1 {
        assert r[|a|] == b[0];
      }
      forall k | 0 <= k < |r| && (k < |a| || |a| + |b| <= k) ensures !r[k].AboveMaximum? {
        if k < |a| {
          assert r[k] == a[k];
        } else {
          assert r[k] == c[k - |a| - |b|];
        }
      }
    }
  }

  /** The checks run in the order minimum, maximum, blocked. */
  lemma ReportOrder(deps: map<string, Version>, name: string, min: Option<Version>, max: Option<Version>,
                    blocked: seq<Version>)
    ensures var r := Violations(deps, name, min, max, blocked);
      forall i, j :: 0 <= i < j < |r| ==> Rank(r[i]) <= Rank(r[j])
  {
    if name in deps {
      var repo := deps[name];
      var a := MinViolations(name, repo, min);
      var b := MaxViolations(name, repo, max);
      var c := if |blocked| > 0 then BlockedViolations(name, repo, blocked) else [];
      var r := a + b + c;
      forall k | 0 <= k < |r| ensures Rank(r[k]) == if k < |a| then 0 else if k < |a| + |b| then 1 else 2 {
        if k >= |a| + |b| {
          assert r[k] == c[k - |a| - |b|];
        } else if k >= |a| {
          assert r[k] == b[k - |a|];
        }
      }
    }
  }

  /** Exactly one "matches blocked" report per blocked entry that is the same version as the repository's. */
  lemma BlockedReportCount(deps: map<string, Version>, name: string, min: Option<Version>, max: Option<Version>,
                           blocked: seq<Version>)
    requires name in deps
    ensures var r := Violations(deps, name, min, max, blocked);
      |r| == |MinViolations(name, deps[name], min)| + |MaxViolations(name, deps[name], max)| +
        multiset(Canons(blocked))[Canon(deps[name])]
    ensures var r := Violations(deps, name, min, max, blocked);
      forall k :: |r| - multiset(Canons(blocked))[Canon(deps[name])] <= k < |r| ==>
        r[k].MatchesBlocked? && r[k].package == name && r[k].repo == deps[name] && Same(deps[name], r[k].blocked)
  {
    if |blocked| == 0 {
      assert multiset(Canons(blocked))[Canon(deps[name])] == 0;
    }
  }

  /** With a minimum not above the maximum, one version never gets both a minimum and a maximum report. */
  lemma MinMaxExclusive(deps: map<string, Version>, name: string, min: Version, max: Version, blocked: seq<Version>)
    requires !Less(max, min)
    ensures var r := Violations(deps, name, Some(min), Some(max), blocked);
      !(HasBelowMinimum(r) && HasAboveMaximum(r))
  {
    MinReportIff(deps, name, Some(min), Some(max), blocked);
    MaxReportIff(deps, name, Some(min), Some(max), blocked);
    if name in deps && Less(deps[name], min) && Less(max, deps[name]) {
      LessTransitive(max, deps[name], min);
    }
  }

  /**
   * The checks do not exclude one another: a misconfigured range and a
   * version blocked twice, once as `5` and once as `5.0`, give four reports.
   */
  lemma SeveralReports()
    ensures Violations(map["rails" := [5]], "rails", Some([6]), Some([4]), [[5], [5, 0]]) ==
      [BelowMinimum("rails", [5], [6]), AboveMaximum("rails", [5], [4]),
       MatchesBlocked("rails", [5], [5]), MatchesBlocked("rails", [5], [5, 0])]
  {
    var blocked: seq<Version> := [[5], [5, 0]];
    assert blocked[..1] == [[5]] && blocked[..1][..0] == [];
    assert [5, 0][..1] == [5];
    assert Canon([5, 0]) == [5] && Canon([5]) == [5] && Canon([6]) == [6] && Canon([4]) == [4];
    assert Less([5], [6]) && Less([4], [5]);
  }

  /** `generate_dependency_hash`. */
  method GenerateDependencyHash(specs: seq<(string, Version)>) returns (deps: map<string, Version>)
    ensures deps == DependencyMap(specs)
  {
    deps := map[];
    for i := 0 to |specs|
      invariant deps == DependencyMap(specs[..i])
    {
      assert specs[..i + 1][..i] == specs[..i];
      deps := deps[specs[i].0 := specs[i].1];
    }
    assert specs[..|specs|] == specs;
  }

  class RubyPackageScanner {
    var dependencies: map<string, Version>
    /** The messages passed to `report_error_status`, oldest first. */
    var reports: seq<Violation>

    /** `initialize`: the map is filled only when the repository has a Gemfile.lock. */
    constructor(gemfileLockPresent: bool, specs: seq<(string, Version)>)
      ensures dependencies == (if gemfileLockPresent then DependencyMap(specs) else map[])
      ensures reports == []
    {
      var deps := map[];
      if gemfileLockPresent {
        deps := GenerateDependencyHash(specs);
      }
      dependencies := deps;
      reports := [];
    }

    /** `check_for_violations`. */
    method CheckForViolations(name: string, min: Option<Version>, max: Option<Version>, blocked: seq<Version>)
      modifies this
      ensures dependencies == old(dependencies)
      ensures reports == old(reports) + Violations(dependencies, name, min, max, blocked)
    {
      if name in dependencies {
        var repo := dependencies[name];
        ghost var start := reports;
        if min.Some? {
          CheckMinVersion(name, repo, min.value);
        }
        ghost var afterMin := reports;
        if max.Some? {
          CheckMaxVersion(name, repo, max.value);
        }
        ghost var afterMax := reports;
        if |blocked| > 0 {
          CheckBlockedVersions(name, repo, blocked);
        }
        ViolationsInSteps(dependencies, name, min, max, blocked, start, afterMin, afterMax, reports);
      }
    }

    method CheckMinVersion(name: string, repo: Version, min: Version)
      modifies this
      ensures dependencies == old(dependencies)
      ensures reports == old(reports) + MinViolations(name, repo, Some(min))
    {
      if Less(repo, min) {
        reports := reports + [BelowMinimum(name, repo, min)];
      }
    }

    method CheckMaxVersion(name: string, repo: Version, max: Version)
      modifies this
      ensures dependencies == old(dependencies)
      ensures reports == old(reports) + MaxViolations(name, repo, Some(max))
    {
      if Less(max, repo) {
        reports := reports + [AboveMaximum(name, repo, max)];
      }
    }

    method CheckBlockedVersions(name: string, repo: Version, blocked: seq<Version>)
      modifies this
      ensures dependencies == old(dependencies)
      ensures reports == old(reports) + BlockedViolations(name, repo, blocked)
    {
      for i := 0 to |blocked|
        invariant dependencies == old(dependencies)
        invariant reports == old(reports) + BlockedViolations(name, repo, blocked[..i])
      {
        assert blocked[..i + 1][..i] == blocked[..i];
        if Same(repo, blocked[i]) {
          reports := reports + [MatchesBlocked(name, repo, blocked[i])];
        }
      }
      assert blocked[..|blocked|] == blocked;
    }
  }
}
