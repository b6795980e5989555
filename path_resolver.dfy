/**
 * Dependency-path resolution: `create_subparent_to_package_mapping`,
 * `find_section_by_name` and `find_section_by_name_and_version`, which exist
 * in both lib/salus/scanners/yarn_audit.rb (V1) and
 * lib/salus/autofixers/yarn_audit_v2.rb (V2). The two copies differ in the
 * path delimiter, the form of the child key they build and the fallback
 * section of the later hops; `Dialect` selects between them.
 */
module PathResolver {
  import opened Wrappers
  import opened RubyStrings
  import opened Lockfile

  datatype Dialect = V1 | V2

  /** The `{prev:, key:}` hash a successful hop returns. */
  datatype Hop = Hop(prev: string, key: string)

  /** V1 splits on `" > "`; V2 on `">"`, without trimming the names. */
  function PathDelimiter(d: Dialect): (r: string)
    ensures |r| > 0
  {
    match d
    case V1 => " > "
    case V2 => ">"
  }

  /** V1 builds `next@range`; V2 builds `next@npm:range`. */
  function KeySeparator(d: Dialect): string {
    match d
    case V1 => "@"
    case V2 => "@npm:"
  }

  /**
   * The section a hop falls back to when `dependencies` does not declare the
   * next name: `optionalDependencies` at hop 0 in both copies and at the later
   * hops in V1; `peerDependencies` at the later hops in V2.
   */
  function Fallback(d: Dialect, first: bool): string {
    if d == V2 && !first then "peerDependencies" else "optionalDependencies"
  }

  /** `%w[dependencies <fallback>].each`: the range the first of the two sections declares. */
  function FindInSections(e: Entry, fallback: string, next: string): Option<string> {
    if Declared(e, "dependencies", next).Some? then Declared(e, "dependencies", next)
    else Declared(e, fallback, next)
  }

  /** Hop 0 matches keys by the prefix `name@`; the later hops need the exact key. */
  predicate KeyMatches(key: string, name: string, exact: bool) {
    if exact then key == name else StartsWith(key, name + "@")
  }

  /** Entry `i` answers a hop looking for `next` under `name`. */
  predicate Hit(l: ParsedLock, i: nat, name: string, next: string, d: Dialect, exact: bool)
    requires i < |l|
  {
    KeyMatches(l[i].0, name, exact) && FindInSections(l[i].1, Fallback(d, !exact), next).Some?
  }

  /** The first entry at or after `k` that answers the hop (the `each ... return` loop). */
  function FirstHit(l: ParsedLock, name: string, next: string, d: Dialect, exact: bool, k: nat): (r: Option<nat>)
    decreases |l| - k
    ensures r.Some? ==> k <= r.value < |l| && Hit(l, r.value, name, next, d, exact)
    ensures r.Some? ==> forall i :: k <= i < r.value ==> !Hit(l, i, name, next, d, exact)
    ensures r.None? ==> forall i :: k <= i < |l| ==> !Hit(l, i, name, next, d, exact)
  {
    if k >= |l| then None
    else if Hit(l, k, name, next, d, exact) then Some(k)
    else FirstHit(l, name, next, d, exact, k + 1)
  }

  function HopAt(l: ParsedLock, i: nat, next: string, d: Dialect, exact: bool): Hop
    requires i < |l| && FindInSections(l[i].1, Fallback(d, !exact), next).Some?
  {
    Hop(l[i].0, next + KeySeparator(d) + FindInSections(l[i].1, Fallback(d, !exact), next).value)
  }

  /** `find_section_by_name(name, next)`: None stands for the `{}` it returns on failure. */
  function FindSectionByName(l: ParsedLock, name: string, next: string, d: Dialect): Option<Hop> {
    match FirstHit(l, name, next, d, false, 0)
    case None => None
    case Some(i) => Some(HopAt(l, i, next, d, false))
  }

  /**
   * `find_section_by_name_and_version(key, next)`. After a failed hop Ruby
   * passes `{}[:key]`, which is nil and equals no key: `key` is None then.
   */
  function FindSectionByNameAndVersion(l: ParsedLock, key: Option<string>, next: string, d: Dialect): Option<Hop> {
    if key.None? then None
    else match FirstHit(l, key.value, next, d, true, 0)
      case None => None
      case Some(i) => Some(HopAt(l, i, next, d, true))
  }

  function KeyOf(section: Option<Hop>): Option<string> {
    if section.Some? then Some(section.value.key) else None
  }

  /** The hops after the first, index by index, each starting from the previous hop's key. */
  function Walk(l: ParsedLock, packages: seq<string>, d: Dialect, index: nat, section: Option<Hop>): Option<Hop>
    decreases |packages| - index
  {
    if index + 1 >= |packages| then section
    else Walk(l, packages, d, index + 1, FindSectionByNameAndVersion(l, KeyOf(section), packages[index + 1], d))
  }

  /** The hop fold over already split package names. */
  function Resolve(l: ParsedLock, packages: seq<string>, d: Dialect): Option<Hop> {
    if |packages| < 2 then None
    else Walk(l, packages, d, 1, FindSectionByName(l, packages[0], packages[1], d))
  }

  /** `create_subparent_to_package_mapping(path)`. */
  function CreateSubparentMapping(l: ParsedLock, path: string, d: Dialect): Option<Hop> {
    Resolve(l, Split(path, PathDelimiter(d)), d)
  }

  /** A failed hop is final: every later hop starts from nil and fails too. */
  lemma {:induction false} FailedHopIsFinal(l: ParsedLock, packages: seq<string>, d: Dialect, index: nat)
    ensures Walk(l, packages, d, index, None) == None
    decreases |packages| - index
  {
    if index + 1 < |packages| {
      FailedHopIsFinal(l, packages, d, index + 1);
    }
  }

  /** What a successful hop says about the lockfile. */
  ghost predicate HopFits(l: ParsedLock, h: Hop, next: string, d: Dialect, exact: bool) {
    exists i :: 0 <= i < |l| && l[i].0 == h.prev &&
      FindInSections(l[i].1, Fallback(d, !exact), next).Some? &&
      h.key == next + KeySeparator(d) + FindInSections(l[i].1, Fallback(d, !exact), next).value
  }

  lemma {:induction false} WalkResult(l: ParsedLock, packages: seq<string>, d: Dialect, index: nat, section: Option<Hop>)
    requires 1 <= index < |packages|
    requires section.Some? ==> HopFits(l, section.value, packages[index], d, index > 1)
    ensures var r := Walk(l, packages, d, index, section);
      r.Some? ==> HopFits(l, r.value, packages[|packages| - 1], d, |packages| > 2)
    decreases |packages| - index
  {
    if index + 1 < |packages| {
      var next := FindSectionByNameAndVersion(l, KeyOf(section), packages[index + 1], d);
      if next.Some? {
        var i := FirstHit(l, KeyOf(section).value, packages[index + 1], d, true, 0).value;
        assert l[i].0 == next.value.prev;
      }
      WalkResult(l, packages, d, index + 1, next);
    }
  }

  /**
   * Resolving `A > ... > X` yields a hop whose child key is `X@<range>` (V2:
   * `X@npm:<range>`), where the range is what the parent entry `prev`
   * declares for X: under `dependencies` if there, else under the fallback
   * section of that hop. A path of fewer than two names resolves to nothing.
   */
  lemma ResolvedKeyShape(l: ParsedLock, packages: seq<string>, d: Dialect)
    ensures |packages| < 2 ==> Resolve(l, packages, d).None?
    ensures Resolve(l, packages, d).Some? ==>
      HopFits(l, Resolve(l, packages, d).value, packages[|packages| - 1], d, |packages| > 2)
  {
    if |packages| >= 2 {
      var first := FindSectionByName(l, packages[0], packages[1], d);
      if first.Some? {
        var i := FirstHit(l, packages[0], packages[1], d, false, 0).value;
        assert l[i].0 == first.value.prev;
      }
      WalkResult(l, packages, d, 1, first);
    }
  }

  /**
   * Hop 0 takes the first entry in lockfile order whose key starts with
   * `A@` and that declares the next name; entries before it do not.
   */
  lemma FirstHopIsFirstMatch(l: ParsedLock, name: string, next: string, d: Dialect)
    ensures FindSectionByName(l, name, next, d).Some? <==>
      exists i :: 0 <= i < |l| && StartsWith(l[i].0, name + "@") && FindInSections(l[i].1, Fallback(d, true), next).Some?
    ensures FindSectionByName(l, name, next, d).Some? ==>
      exists i :: 0 <= i < |l| && l[i].0 == FindSectionByName(l, name, next, d).value.prev &&
        StartsWith(l[i].0, name + "@") &&
        forall j :: 0 <= j < i ==> !(StartsWith(l[j].0, name + "@") && FindInSections(l[j].1, Fallback(d, true), next).Some?)
  {
    var r := FirstHit(l, name, next, d, false, 0);
    if r.Some? {
      var i := r.value;
      assert Hit(l, i, name, next, d, false);
      forall j | 0 <= j < i ensures !(StartsWith(l[j].0, name + "@") && FindInSections(l[j].1, Fallback(d, true), next).Some?) {
        assert !Hit(l, j, name, next, d, false);
      }
    } else {
      forall i | 0 <= i < |l| ensures !(StartsWith(l[i].0, name + "@") && FindInSections(l[i].1, Fallback(d, true), next).Some?) {
        assert !Hit(l, i, name, next, d, false);
      }
    }
  }
}
