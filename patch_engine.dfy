/**
 * The two yarn.lock passes of the auto-fix engine, `update_package_definition`
 * (Pass A) and `update_sub_parent_resolution` (Pass B), as they stand in
 * lib/salus/scanners/yarn_audit.rb and lib/salus/autofixers/yarn_audit_v2.rb.
 * The lockfile text is cut into blocks at blank lines; each pass walks the
 * groups of mappings and, per group, rewrites the blocks in place. Any raise
 * stops the pass; the caller sees it as a `Fault`.
 */
module PatchEngine {
  import opened Wrappers
  import opened RubyStrings
  import opened VersionPolicy
  import opened Lockfile
  import opened PathResolver
  import opened Registry
  import opened FixFeed
  import opened Traversal

  /**
   * `key.split("@", 2).first` for a scoped key (always ""), else
   * `key.split("@").first`: the package name of `name@range`.
   */
  function PackageName(key: string): string {
    if StartsWith(key, "@") then ""
    else
      var pieces := Split(key, "@");
      if |pieces| == 0 then "" else pieces[0]
  }

  /**
   * The child keys the resolver builds, `next@range` (V1) and
   * `next@npm:range` (V2), give back `next` for an unscoped name; a scoped
   * name (`@scope/pkg`) gives the empty name.
   */
  lemma PackageNameOfResolvedKey(next: string, range: string, d: Dialect)
    ensures |next| > 0 && next[0] != '@' && (forall k :: 0 <= k < |next| ==> next[k] != '@') ==>
      PackageName(next + KeySeparator(d) + range) == next
    ensures |next| > 0 && next[0] == '@' ==> PackageName(next + KeySeparator(d) + range) == ""
  {
    var key := next + KeySeparator(d) + range;
    if |next| > 0 && next[0] == '@' {
      assert key[0..1] == "@";
    } else if |next| > 0 && forall k :: 0 <= k < |next| ==> next[k] != '@' {
      assert key[0..1] != "@";
      forall k | 0 <= k < |next| ensures !OccursAt(key, "@", k) {
        assert key[k..k + 1] == [next[k]];
      }
      assert key[|next|..|next| + 1] == "@";
      IndexOfFirst(key, "@", |next|);
      var raw := RawSplit(key, "@");
      assert raw[0] == next;
      var pieces := DropTrailingEmpty(raw);
      assert raw[0] != "";
      assert pieces[0] == raw[0];
    }
  }

  // ---------------------------------------------------------------- Pass A

  /** What Pass A writes into a matching block for one group. */
  datatype Rewrite = Rewrite(key: string, name: string, version: string, resolved: string, integrity: string)

  /** `current_v.to_s.tr('"', "").tr("version ", "")` for `current_v = part.match(/(version .*)/)`. */
  function CurrentVersion(part: string): string {
    CurrentVersionText(MatchText(part, "version "))
  }

  function CurrentVersionText(matched: string): string {
    DeleteChars(DeleteChars(matched, Quote), VersionLetters)
  }

  /** The four `sub!` calls, in order, on a block Pass A rewrites. */
  function RewriteA(part: string, w: Rewrite): string {
    var named := SubFirst(part, w.key, w.name);
    var versioned := SubToEol(named, "version ", w.version);
    var resolved := SubToEol(versioned, "resolved ", w.resolved);
    SubToEol(resolved, "integrity ", w.integrity)
  }

  /**
   * One block of Pass A: a block that contains the key is rewritten when
   * `is_major_bump(<its version>, v)` is false, and the pass raises when
   * that comparison raises; any other block is left as it is.
   */
  function StepA(part: string, w: Rewrite, v: string): (r: Result<string>)
    ensures !Contains(part, w.key) ==> r == Ok(part)
    ensures r.Err? <==> Contains(part, w.key) && IsMajorBump(CurrentVersion(part), v).Err?
  {
    if !Contains(part, w.key) then Ok(part)
    else match IsMajorBump(CurrentVersion(part), v)
      case Err(f) => Err(f)
      case Ok(bump) => if bump then Ok(part) else Ok(RewriteA(part, w))
  }

  function StepAFn(w: Rewrite, v: string): string -> Result<string> {
    part => StepA(part, w, v)
  }

  /** The body of Pass A's loop for one block: the major-bump gate, then the four `sub!` calls. */
  method RewriteBlockA(part: string, w: Rewrite, v: string) returns (r: Result<string>)
    ensures r == StepA(part, w, v)
  {
    var versionString := CurrentVersion(part);
    if !Contains(part, w.key) {
      return Ok(part);
    }
    var bump := IsMajorBump(versionString, v);
    if bump.Err? {
      return Err(bump.fault);
    }
    if bump.value {
      return Ok(part);
    }
    var rewritten := SubFirst(part, w.key, w.name);
    rewritten := SubToEol(rewritten, "version ", w.version);
    rewritten := SubToEol(rewritten, "resolved ", w.resolved);
    rewritten := SubToEol(rewritten, "integrity ", w.integrity);
    return Ok(rewritten);
  }

  /** The `parts.each_with_index` loop of Pass A for one group. */
  method RewriteBlocksA(parts: array<string>, w: Rewrite, v: string) returns (fault: Option<Fault>)
    modifies parts
    ensures var r := MapEach(old(parts[..]), StepAFn(w, v));
      (fault.None? <==> r.Ok?) && (r.Ok? ==> parts[..] == r.value) && (r.Err? ==> fault == Some(r.fault))
  {
    ghost var before := parts[..];
    ghost var step := StepAFn(w, v);
    var i := 0;
    while i < parts.Length
      invariant 0 <= i <= parts.Length
      invariant StepsTo(before[..i], parts[..i], step)
      invariant parts[i..] == before[i..]
    {
      assert parts[i] == parts[i..][0] == before[i];
      var r := RewriteBlockA(parts[i], w, v);
      if r.Err? {
        StepsToStop(before, parts[..i], i, step);
        return Some(r.fault);
      }
      ghost var done := parts[..i];
      StepsToExtend(before, done, i, r.value, step);
      parts[i] := r.value;
      assert parts[..i + 1] == done + [r.value];
      assert parts[i + 1..] == before[i + 1..];
      i := i + 1;
    }
    StepsToDone(before, parts[..], step);
    return None;
  }

  /** V1 reads `info["data"]["versions"]`; V2 reads `info["versions"]`. */
  function PassAVersions(d: Dialect, info: Option<Info>): Result<Option<seq<string>>> {
    if d == V1 then DataVersions(info) else TopVersions(info)
  }

  /** V1 reads `info["data"]["dist"]`; V2 reads `info["dist"]`. */
  function PassADist(d: Dialect, info: Info): Result<Dist> {
    if d == V1 then DataDist(info) else TopDist(info)
  }

  /**
   * `updated_resolved` and `updated_integrity`, built before the blocks are
   * visited: `"resolved \"" + tarball + "#" + shasum + "\""` and
   * `"integrity " + integrity`. `String + nil` raises `TypeError`, the
   * tarball first.
   */
  function DistLines(dist: Dist): (r: Result<(string, string)>)
    ensures r.Ok? <==> dist.tarball.Some? && dist.shasum.Some? && dist.integrity.Some?
    ensures r.Err? ==> r.fault.NilConversion?
  {
    match (dist.tarball, dist.shasum, dist.integrity)
    case (None, _, _) => Err(NilConversion("tarball"))
    case (_, None, _) => Err(NilConversion("shasum"))
    case (_, _, None) => Err(NilConversion("integrity"))
    case (Some(tarball), Some(shasum), Some(integrity)) =>
      Ok(("resolved \"" + tarball + "#" + shasum + "\"", "integrity " + integrity))
  }

  /** The `resolved` and `integrity` lines of the registry's answer for the selected version. */
  function PassALines(d: Dialect, fixed: Info): Result<(string, string)> {
    match PassADist(d, fixed)
    case Err(f) => Err(f)
    case Ok(dist) => DistLines(dist)
  }

  /** The strings Pass A writes for package `name` upgraded to `v`. */
  function RewriteFor(key: string, name: string, v: string, lines: (string, string)): Rewrite {
    Rewrite(key, name + "@^" + v, "version \"" + v + "\"", lines.0, lines.1)
  }

  /**
   * Pass A for one group: query the registry for the child key, select an
   * upgrade for the group's first patch range, query the registry again for
   * the selected version, and rewrite the blocks that carry the key. No
   * selected version, or no answer for it, leaves the blocks as they are.
   */
  function GroupA(env: Env, d: Dialect, g: Mapping, parts: seq<string>): Result<seq<string>> {
    match PassAVersions(d, env.registry(g.key, None))
    case Err(f) => Err(f)
    case Ok(versions) =>
      match env.selectUpgrade(g.patch, versions)
      case None => Ok(parts)
      case Some(v) =>
        var name := PackageName(g.key);
        match env.registry(name, Some(v))
        case None => Ok(parts)
        case Some(fixed) =>
          match PassALines(d, fixed)
          case Err(f) => Err(f)
          case Ok(lines) => MapEach(parts, StepAFn(RewriteFor(g.key, name, v, lines), v))
  }

  /** `group_updates.each`: the groups in order, each seeing the blocks the earlier ones left. */
  function PassA(env: Env, d: Dialect, groups: seq<Mapping>, parts: seq<string>): Result<seq<string>>
    decreases |groups|
  {
    if |groups| == 0 then Ok(parts)
    else match GroupA(env, d, groups[0], parts)
      case Err(f) => Err(f)
      case Ok(next) => PassA(env, d, groups[1..], next)
  }

  /**
   * Within one group, Pass A keeps the number of blocks, and a block that
   * does not contain the group's child key comes out exactly as it went in.
   */
  lemma GroupAOnlyTouchesKeyBlocks(env: Env, d: Dialect, g: Mapping, parts: seq<string>)
    ensures GroupA(env, d, g, parts).Ok? ==>
      |GroupA(env, d, g, parts).value| == |parts| &&
      (forall k :: 0 <= k < |parts| && !Contains(parts[k], g.key) ==> GroupA(env, d, g, parts).value[k] == parts[k])
  {
    var versions := PassAVersions(d, env.registry(g.key, None));
    if versions.Ok? && env.selectUpgrade(g.patch, versions.value).Some? {
      var v := env.selectUpgrade(g.patch, versions.value).value;
      var name := PackageName(g.key);
      var fixed := env.registry(name, Some(v));
      if fixed.Some? && PassALines(d, fixed.value).Ok? {
        var w := RewriteFor(g.key, name, v, PassALines(d, fixed.value).value);
        MapEachMeaning(parts, StepAFn(w, v));
      }
    }
  }

  /**
   * One group of Pass A: it raises when the registry's version list or the
   * selected version's `dist` lines raise; it returns the blocks unchanged
   * when no version is selected or the registry has no answer for it;
   * otherwise it completes exactly when no block's gate raises, and then
   * each block is that block's `StepA` with the new name `<name>@^v`, the
   * line `version "v"` and the registry's resolved and integrity lines.
   */
  lemma GroupAEffect(env: Env, d: Dialect, g: Mapping, parts: seq<string>)
    ensures var versions := PassAVersions(d, env.registry(g.key, None));
      versions.Err? ==> GroupA(env, d, g, parts) == Err(versions.fault)
    ensures var versions := PassAVersions(d, env.registry(g.key, None));
      versions.Ok? && env.selectUpgrade(g.patch, versions.value).None? ==> GroupA(env, d, g, parts) == Ok(parts)
    ensures var versions := PassAVersions(d, env.registry(g.key, None));
      versions.Ok? && env.selectUpgrade(g.patch, versions.value).Some? ==>
        var v := env.selectUpgrade(g.patch, versions.value).value;
        var name := PackageName(g.key);
        var fixed := env.registry(name, Some(v));
        (fixed.None? ==> GroupA(env, d, g, parts) == Ok(parts)) &&
        (fixed.Some? && PassALines(d, fixed.value).Err? ==>
           GroupA(env, d, g, parts) == Err(PassALines(d, fixed.value).fault)) &&
        (fixed.Some? && PassALines(d, fixed.value).Ok? ==>
           var w := RewriteFor(g.key, name, v, PassALines(d, fixed.value).value);
           w.name == name + "@^" + v && w.version == "version \"" + v + "\"" &&
           (GroupA(env, d, g, parts).Ok? <==> forall k :: 0 <= k < |parts| ==> StepA(parts[k], w, v).Ok?) &&
           (GroupA(env, d, g, parts).Ok? ==>
              |GroupA(env, d, g, parts).value| == |parts| &&
              forall k :: 0 <= k < |parts| ==> StepA(parts[k], w, v) == Ok(GroupA(env, d, g, parts).value[k])))
  {
    var versions := PassAVersions(d, env.registry(g.key, None));
    if versions.Ok? && env.selectUpgrade(g.patch, versions.value).Some? {
      var v := env.selectUpgrade(g.patch, versions.value).value;
      var name := PackageName(g.key);
      var fixed := env.registry(name, Some(v));
      if fixed.Some? && PassALines(d, fixed.value).Ok? {
        var w := RewriteFor(g.key, name, v, PassALines(d, fixed.value).value);
        MapEachMeaning(parts, StepAFn(w, v));
      }
    }
  }

  /** A whole Pass A keeps the number of blocks. */
  lemma {:induction false} PassAKeepsBlockCount(env: Env, d: Dialect, groups: seq<Mapping>, parts: seq<string>)
    ensures PassA(env, d, groups, parts).Ok? ==> |PassA(env, d, groups, parts).value| == |parts|
    decreases |groups|
  {
    if |groups| > 0 {
      GroupAOnlyTouchesKeyBlocks(env, d, groups[0], parts);
      var r := GroupA(env, d, groups[0], parts);
      if r.Ok? {
        PassAKeepsBlockCount(env, d, groups[1..], r.value);
      }
    }
  }

  const Quote: set<char> := {'"'}
  const VersionLetters: set<char> := {'v', 'e', 'r', 's', 'i', 'o', 'n', ' '}

  predicate DigitsAndDots(s: string) {
    forall k :: 0 <= k < |s| ==> IsDigit(s[k]) || s[k] == '.'
  }

  lemma UnquoteDigits(digits: string)
    requires DigitsAndDots(digits)
    ensures DeleteChars("\"" + digits + "\"", Quote) == digits
  {
    DeleteCharsAppend(digits, "\"", Quote);
    DeleteCharsKeeps(digits, Quote);
    DeleteCharsDropsAll("\"", Quote);
    DeleteCharsAppend("\"", digits + "\"", Quote);
    assert "\"" + digits + "\"" == "\"" + (digits + "\"");
  }

  lemma UnquoteVersionLine(digits: string)
    requires DigitsAndDots(digits)
    ensures DeleteChars("version \"" + digits + "\"", Quote) == "version " + digits
  {
    var w := "version ";
    var rest := "\"" + digits + "\"";
    UnquoteDigits(digits);
    assert forall k :: 0 <= k < |w| ==> w[k] !in Quote;
    DeleteCharsKeepsPrefix(w, rest, Quote);
    assert "version \"" + digits + "\"" == w + rest;
  }

  /** `tr('"', "").tr("version ", "")` turns `version "<digits and dots>"` into the digits and dots. */
  lemma VersionLineDigits(digits: string)
    requires DigitsAndDots(digits)
    ensures CurrentVersionText("version \"" + digits + "\"") == digits
  {
    UnquoteVersionLine(digits);
    DeleteCharsAppend("version ", digits, VersionLetters);
    DigitsKeepThroughLetters(digits);
    VersionWordDropped();
    assert "" + digits == digits;
  }

  lemma DigitsKeepThroughLetters(digits: string)
    requires DigitsAndDots(digits)
    ensures DeleteChars(digits, VersionLetters) == digits
  {
    DeleteCharsKeeps(digits, VersionLetters);
  }

  lemma VersionWordDropped()
    ensures DeleteChars("version ", VersionLetters) == ""
  {
    DeleteCharsDropsAll("version ", VersionLetters);
  }

  /**
   * The Pass A gate on a block whose version line reads `version "<cur><tail>"`
   * (digits and dots, e.g. `version "4.17.21"`): the block is rewritten
   * exactly when the selected version's major does not exceed `cur`.
   */
  lemma PassAGate(part: string, w: Rewrite, cur: nat, tail: string, upd: nat, updTail: string)
    requires Contains(part, w.key)
    requires MatchText(part, "version ") == "version \"" + DecimalString(cur) + tail + "\""
    requires DigitsAndDots(tail) && (tail == [] || tail[0] == '.')
    requires updTail == [] || updTail[0] == '.'
    ensures StepA(part, w, DecimalString(upd) + updTail) == (if upd > cur then Ok(part) else Ok(RewriteA(part, w)))
  {
    CurrentVersionOfLine(part, cur, tail);
    NumericGate(cur, tail, upd, updTail);
  }

  /**
   * What Pass A writes into a block that passes the gate. For a block laid
   * out as `pre <key> a version t1 b resolved t2 c integrity t3 post`, where
   * each literal's first occurrence (after the earlier `sub!` calls) is the
   * one shown and each `t` is the rest of its line, the key becomes the new
   * name, the three lines become the new version, resolved and integrity
   * lines, and everything else is kept.
   */
  lemma PassARewrite(part: string, w: Rewrite, v: string,
                     pre: string, a: string, t1: string, b: string, t2: string, c: string, t3: string, post: string)
    requires part == pre + w.key + a + "version " + t1 + b + "resolved " + t2 + c + "integrity " + t3 + post
    requires IndexOf(part, w.key) == Some(|pre|)
    requires var s := pre + w.name + a + "version " + t1 + b + "resolved " + t2 + c + "integrity " + t3 + post;
      IndexOf(s, "version ") == Some(|pre + w.name + a|)
    requires var s := pre + w.name + a + w.version + b + "resolved " + t2 + c + "integrity " + t3 + post;
      IndexOf(s, "resolved ") == Some(|pre + w.name + a + w.version + b|)
    requires var s := pre + w.name + a + w.version + b + w.resolved + c + "integrity " + t3 + post;
      IndexOf(s, "integrity ") == Some(|pre + w.name + a + w.version + b + w.resolved + c|)
    requires NoNewline(t1) && NoNewline(t2) && NoNewline(t3)
    requires |b| > 0 && b[0] == '\n' && |c| > 0 && c[0] == '\n' && (post == [] || post[0] == '\n')
    requires IsMajorBump(CurrentVersion(part), v) == Ok(false)
    ensures StepA(part, w, v) == Ok(pre + w.name + a + w.version + b + w.resolved + c + w.integrity + post)
  {
    NameStep(part, w, pre, a, t1, b, t2, c, t3, post);
    VersionStep(pre + w.name + a, t1, b, t2, c, t3, post, w.version);
    ResolvedStep(pre + w.name + a + w.version + b, t2, c, t3, post, w.resolved);
    IntegrityStep(pre + w.name + a + w.version + b + w.resolved + c, t3, post, w.integrity);
  }

  lemma NameStep(part: string, w: Rewrite, pre: string, a: string, t1: string, b: string, t2: string, c: string, t3: string, post: string)
    requires part == pre + w.key + a + "version " + t1 + b + "resolved " + t2 + c + "integrity " + t3 + post
    requires IndexOf(part, w.key) == Some(|pre|)
    ensures SubFirst(part, w.key, w.name) == pre + w.name + a + "version " + t1 + b + "resolved " + t2 + c + "integrity " + t3 + post
  {
    var rest := a + "version " + t1 + b + "resolved " + t2 + c + "integrity " + t3 + post;
    RegroupBlock(pre, w.key, a, t1, b, t2, c, t3, post);
    SubFirstAt(part, pre, w.key, rest, w.name);
    RegroupBlock(pre, w.name, a, t1, b, t2, c, t3, post);
  }

  lemma RegroupBlock(pre: string, k: string, a: string, t1: string, b: string, t2: string, c: string, t3: string, post: string)
    ensures pre + k + a + "version " + t1 + b + "resolved " + t2 + c + "integrity " + t3 + post
         == pre + k + (a + "version " + t1 + b + "resolved " + t2 + c + "integrity " + t3 + post)
  {
  }

  lemma RegroupTail(x: string, lit: string, t: string, b: string, t2: string, c: string, t3: string, post: string)
    ensures x + lit + t + b + "resolved " + t2 + c + "integrity " + t3 + post
         == x + lit + t + (b + "resolved " + t2 + c + "integrity " + t3 + post)
  {
  }

  lemma VersionStep(x: string, t1: string, b: string, t2: string, c: string, t3: string, post: string, rep: string)
    requires IndexOf(x + "version " + t1 + b + "resolved " + t2 + c + "integrity " + t3 + post, "version ") == Some(|x|)
    requires NoNewline(t1) && |b| > 0 && b[0] == '\n'
    ensures SubToEol(x + "version " + t1 + b + "resolved " + t2 + c + "integrity " + t3 + post, "version ", rep)
         == x + rep + b + "resolved " + t2 + c + "integrity " + t3 + post
  {
    var y := b + "resolved " + t2 + c + "integrity " + t3 + post;
    RegroupTail(x, "version ", t1, b, t2, c, t3, post);
    SubToEolLine(x + "version " + t1 + y, x, "version ", t1, y, rep);
    RegroupTail(x, rep, [], b, t2, c, t3, post);
    assert x + rep + [] == x + rep;
  }

  lemma ResolvedStep(x: string, t2: string, c: string, t3: string, post: string, rep: string)
    requires IndexOf(x + "resolved " + t2 + c + "integrity " + t3 + post, "resolved ") == Some(|x|)
    requires NoNewline(t2) && |c| > 0 && c[0] == '\n'
    ensures SubToEol(x + "resolved " + t2 + c + "integrity " + t3 + post, "resolved ", rep)
         == x + rep + c + "integrity " + t3 + post
  {
    var y := c + "integrity " + t3 + post;
    assert x + "resolved " + t2 + c + "integrity " + t3 + post == x + "resolved " + t2 + y;
    SubToEolLine(x + "resolved " + t2 + y, x, "resolved ", t2, y, rep);
    assert x + rep + y == x + rep + c + "integrity " + t3 + post;
  }

  lemma IntegrityStep(x: string, t3: string, post: string, rep: string)
    requires IndexOf(x + "integrity " + t3 + post, "integrity ") == Some(|x|)
    requires NoNewline(t3) && (post == [] || post[0] == '\n')
    ensures SubToEol(x + "integrity " + t3 + post, "integrity ", rep) == x + rep + post
  {
    SubToEolLine(x + "integrity " + t3 + post, x, "integrity ", t3, post, rep);
  }

  predicate NoNewline(t: string) {
    forall k :: 0 <= k < |t| ==> t[k] != '\n'
  }

  /** The version text Pass A reads off a `version "<cur><tail>"` line. */
  lemma CurrentVersionOfLine(part: string, cur: nat, tail: string)
    requires MatchText(part, "version ") == "version \"" + DecimalString(cur) + tail + "\""
    requires DigitsAndDots(tail)
    ensures CurrentVersion(part) == DecimalString(cur) + tail
  {
    var digits := DecimalString(cur) + tail;
    DigitsThenTail(DecimalString(cur), tail);
    VersionLineDigits(digits);
    assert MatchText(part, "version ") == "version \"" + digits + "\"";
  }

  lemma DigitsThenTail(ds: string, tail: string)
    requires forall k :: 0 <= k < |ds| ==> IsDigit(ds[k])
    requires DigitsAndDots(tail)
    ensures DigitsAndDots(ds + tail)
  {
    var s := ds + tail;
    forall k | 0 <= k < |s| ensures IsDigit(s[k]) || s[k] == '.' {
      if k >= |ds| {
        assert s[k] == tail[k - |ds|];
      }
    }
  }

  /** `update_package_definition(blocks, parts)`: Pass A over the groups of `blocks`, rewriting `parts` in place. */
  method UpdatePackageDefinition(env: Env, d: Dialect, blocks: seq<Mapping>, parts: array<string>) returns (fault: Option<Fault>)
    modifies parts
    ensures var r := PassA(env, d, Groups(blocks), old(parts[..]));
      (fault.None? <==> r.Ok?) && (r.Ok? ==> parts[..] == r.value) && (r.Err? ==> fault == Some(r.fault))
  {
    var groups := Groups(blocks);
    var i := 0;
    while i < |groups|
      invariant 0 <= i <= |groups|
      invariant PassA(env, d, groups, old(parts[..])) == PassA(env, d, groups[i..], parts[..])
    {
      var g := groups[i];
      assert groups[i..][1..] == groups[i + 1..];
      var versions := PassAVersions(d, env.registry(g.key, None));
      if versions.Err? {
        return Some(versions.fault);
      }
      var selected := env.selectUpgrade(g.patch, versions.value);
      if selected.Some? {
        var v := selected.value;
        var name := PackageName(g.key);
        var fixed := env.registry(name, Some(v));
        if fixed.Some? {
          var lines := PassALines(d, fixed.value);
          if lines.Err? {
            return Some(lines.fault);
          }
          var f := RewriteBlocksA(parts, RewriteFor(g.key, name, v, lines.value), v);
          if f.Some? {
            return f;
          }
        }
      }
      i := i + 1;
    }
    return None;
  }

  // ---------------------------------------------------------------- Pass B

  /** The text `part.match(/(#{target} .*)/).to_s`: the first `<target> ...` line, or "". */
  function TargetLine(part: string, target: string): string {
    MatchText(part, target + " ")
  }

  /**
   * Pass B's test for one block. V1 asks that the block contain the parent
   * key and the target name; V2 that it contain the parent key and a
   * `<target> ` match. Then `is_major_bump(<matched line>, v)` must be
   * false; it raises when the match is empty.
   */
  function GateB(part: string, source: string, target: string, v: string, d: Dialect): Result<bool> {
    var found := if d == V1 then Contains(part, target) else MatchToEol(part, target + " ").Some?;
    if !(Contains(part, source) && found) then Ok(false)
    else match IsMajorBump(TargetLine(part, target), v)
      case Err(f) => Err(f)
      case Ok(bump) => Ok(!bump)
  }

  /** `match.to_s.split(" ").first + ' "^' + v + '"'`. */
  function CaretLine(word: string, v: string): string {
    word + " \"^" + v + "\""
  }

  /**
   * One block of Pass B: a block that passes the gate has its first
   * `<target> ...` line replaced by `<first word> "^v"`; `nil + String`
   * raises when the matched line is blank.
   */
  function StepB(part: string, source: string, target: string, v: string, d: Dialect): (r: Result<string>)
  {
    match GateB(part, source, target, v, d)
    case Err(f) => Err(f)
    case Ok(rewrite) =>
      if !rewrite then Ok(part)
      else match AwkFirst(TargetLine(part, target))
        case None => Err(NilAccess("split first of the matched line"))
        case Some(word) => Ok(SubToEol(part, target + " ", CaretLine(word, v)))
  }

  function StepBFn(source: string, target: string, v: string, d: Dialect): string -> Result<string> {
    part => StepB(part, source, target, v, d)
  }

  /** The body of Pass B's loop for one block. */
  method RewriteBlockB(part: string, source: string, target: string, v: string, d: Dialect) returns (r: Result<string>)
    ensures r == StepB(part, source, target, v, d)
  {
    var matched := MatchToEol(part, target + " ");
    var found := if d == V1 then Contains(part, target) else matched.Some?;
    if !(Contains(part, source) && found) {
      return Ok(part);
    }
    var bump := IsMajorBump(TargetLine(part, target), v);
    if bump.Err? {
      return Err(bump.fault);
    }
    if bump.value {
      return Ok(part);
    }
    var word := AwkFirst(TargetLine(part, target));
    if word.None? {
      return Err(NilAccess("split first of the matched line"));
    }
    return Ok(SubToEol(part, target + " ", CaretLine(word.value, v)));
  }

  /** The `parts.each_with_index` loop of Pass B for one group. */
  method RewriteBlocksB(parts: array<string>, source: string, target: string, v: string, d: Dialect) returns (fault: Option<Fault>)
    modifies parts
    ensures var r := MapEach(old(parts[..]), StepBFn(source, target, v, d));
      (fault.None? <==> r.Ok?) && (r.Ok? ==> parts[..] == r.value) && (r.Err? ==> fault == Some(r.fault))
  {
    ghost var before := parts[..];
    ghost var step := StepBFn(source, target, v, d);
    var i := 0;
    while i < parts.Length
      invariant 0 <= i <= parts.Length
      invariant StepsTo(before[..i], parts[..i], step)
      invariant parts[i..] == before[i..]
    {
      assert parts[i] == parts[i..][0] == before[i];
      var r := RewriteBlockB(parts[i], source, target, v, d);
      if r.Err? {
        StepsToStop(before, parts[..i], i, step);
        return Some(r.fault);
      }
      ghost var done := parts[..i];
      StepsToExtend(before, done, i, r.value, step);
      parts[i] := r.value;
      assert parts[..i + 1] == done + [r.value];
      assert parts[i + 1..] == before[i + 1..];
      i := i + 1;
    }
    StepsToDone(before, parts[..], step);
    return None;
  }

  /**
   * Pass B for one group: the parent key `source` and the bare target name;
   * the registry is asked for the target's `data.versions`; when a version
   * is selected the blocks are rewritten and the parsed lockfile's
   * `lock[source]["dependencies"][target]` is set to `"^v"`.
   */
  function GroupB(env: Env, d: Dialect, g: Mapping, parts: seq<string>, lock: ParsedLock): Result<(seq<string>, ParsedLock)> {
    var target := PackageName(g.key);
    match DataVersions(env.registry(target, None))
    case Err(f) => Err(f)
    case Ok(versions) =>
      match env.selectUpgrade(g.patch, versions)
      case None => Ok((parts, lock))
      case Some(v) =>
        match MapEach(parts, StepBFn(g.prev, target, v, d))
        case Err(f) => Err(f)
        case Ok(next) =>
          match SetDependency(lock, g.prev, target, "^" + v)
          case Err(f) => Err(f)
          case Ok(updated) => Ok((next, updated))
  }

  /** `group_appends.each`: the groups in order over the blocks and lockfile the earlier ones left. */
  function PassB(env: Env, d: Dialect, groups: seq<Mapping>, parts: seq<string>, lock: ParsedLock): Result<(seq<string>, ParsedLock)>
    decreases |groups|
  {
    if |groups| == 0 then Ok((parts, lock))
    else match GroupB(env, d, groups[0], parts, lock)
      case Err(f) => Err(f)
      case Ok((next, updated)) => PassB(env, d, groups[1..], next, updated)
  }

  /**
   * `update_sub_parent_resolution`: Pass B over the groups of `blocks`,
   * rewriting `parts` in place and returning the updated parsed lockfile.
   */
  method UpdateSubParentResolution(env: Env, d: Dialect, blocks: seq<Mapping>, parts: array<string>, lock: ParsedLock)
    returns (fault: Option<Fault>, newLock: ParsedLock)
    modifies parts
    ensures var r := PassB(env, d, Groups(blocks), old(parts[..]), lock);
      (fault.None? <==> r.Ok?) && (r.Ok? ==> parts[..] == r.value.0 && newLock == r.value.1) &&
      (r.Err? ==> fault == Some(r.fault))
  {
    var groups := Groups(blocks);
    newLock := lock;
    var i := 0;
    while i < |groups|
      invariant 0 <= i <= |groups|
      invariant PassB(env, d, groups, old(parts[..]), lock) == PassB(env, d, groups[i..], parts[..], newLock)
    {
      var g := groups[i];
      assert groups[i..][1..] == groups[i + 1..];
      var source := g.prev;
      var target := PackageName(g.key);
      var versions := DataVersions(env.registry(target, None));
      if versions.Err? {
        return Some(versions.fault), newLock;
      }
      var selected := env.selectUpgrade(g.patch, versions.value);
      if selected.Some? {
        var v := selected.value;
        var f := RewriteBlocksB(parts, source, target, v, d);
        if f.Some? {
          return f, newLock;
        }
        var section := SetDependency(newLock, source, target, "^" + v);
        if section.Err? {
          return Some(section.fault), newLock;
        }
        newLock := section.value;
      }
      i := i + 1;
    }
    return None, newLock;
  }

  lemma StepBRewrites(part: string, source: string, target: string, v: string, d: Dialect, word: string)
    requires GateB(part, source, target, v, d) == Ok(true)
    requires AwkFirst(TargetLine(part, target)) == Some(word)
    ensures StepB(part, source, target, v, d) == Ok(SubToEol(part, target + " ", CaretLine(word, v)))
  {
  }

  /** The text edit of Pass B on the line `pre + target + " " + rest`. */
  lemma CaretRewriteOfLine(part: string, pre: string, target: string, rest: string, post: string, v: string)
    requires part == pre + target + " " + rest + post
    requires |target| > 0 && forall k :: 0 <= k < |target| ==> !IsSpace(target[k])
    requires IndexOf(part, target + " ") == Some(|pre|)
    requires forall k :: 0 <= k < |rest| ==> rest[k] != '\n'
    requires post == [] || post[0] == '\n'
    ensures AwkFirst(TargetLine(part, target)) == Some(target)
    ensures SubToEol(part, target + " ", CaretLine(target, v)) == pre + target + " \"^" + v + "\"" + post
  {
    var line := CaretLine(target, v);
    TargetLineOfMatch(part, pre, target, rest, post, line);
    assert pre + line + post == pre + target + " \"^" + v + "\"" + post;
  }

  /** The matched line of `pre + target + " " + rest + post` is `target + " " + rest`, and `sub` replaces exactly it. */
  lemma TargetLineOfMatch(part: string, pre: string, target: string, rest: string, post: string, rep: string)
    requires part == pre + target + " " + rest + post
    requires |target| > 0 && forall k :: 0 <= k < |target| ==> !IsSpace(target[k])
    requires IndexOf(part, target + " ") == Some(|pre|)
    requires forall k :: 0 <= k < |rest| ==> rest[k] != '\n'
    requires post == [] || post[0] == '\n'
    ensures AwkFirst(TargetLine(part, target)) == Some(target)
    ensures SubToEol(part, target + " ", rep) == pre + rep + post
  {
    var lit := target + " ";
    assert part == pre + lit + rest + post;
    SubToEolLine(part, pre, lit, rest, post, rep);
    AwkFirstOfWord(target, rest);
  }

  /**
   * The line Pass B writes: in a block that passes the gate, whose first
   * `<target> ` match sits on the line `pre + target + " " + rest`, that
   * line becomes `pre + target + ' "^v"'`. The indentation before the match
   * and every other line of the block are kept.
   */
  lemma PassBLineRewrite(part: string, pre: string, target: string, rest: string, post: string, source: string, v: string, d: Dialect)
    requires part == pre + target + " " + rest + post
    requires |target| > 0 && forall k :: 0 <= k < |target| ==> !IsSpace(target[k])
    requires IndexOf(part, target + " ") == Some(|pre|)
    requires forall k :: 0 <= k < |rest| ==> rest[k] != '\n'
    requires post == [] || post[0] == '\n'
    requires GateB(part, source, target, v, d) == Ok(true)
    ensures StepB(part, source, target, v, d) == Ok(pre + target + " \"^" + v + "\"" + post)
  {
    CaretRewriteOfLine(part, pre, target, rest, post, v);
    StepBRewrites(part, source, target, v, d, target);
  }

  /** The matched line of a letter-initial target has major 0, or there is no match and the gate raises. */
  lemma TargetLineBump(part: string, target: string, v: string)
    requires |target| > 0 && !IsSpace(target[0]) && !IsDigit(target[0])
    requires target[0] != '-' && target[0] != '+' && target[0] != '.'
    requires MajorOf(v).Some? && MajorOf(v).value >= 1
    ensures IsMajorBump(TargetLine(part, target), v) != Ok(false)
  {
    match MatchToEol(part, target + " ")
    case None =>
      SplitDotsShape("");
    case Some((i, j)) =>
      var text := part[i..j];
      assert TargetLine(part, target) == text;
      assert text[0] == part[i] == (target + " ")[0];
      MajorOfNonNumeric(text);
  }

  /**
   * The Pass B gate compares the whole matched line, e.g. `lodash "^4.17.0"`,
   * whose `to_i` is 0. So for a target name that starts with a letter, a
   * selected version with major 1 or more never rewrites a block: the
   * block comes back unchanged, or the pass raises.
   */
  lemma PassBRefusesPastZero(part: string, source: string, target: string, v: string, d: Dialect)
    requires |target| > 0 && !IsSpace(target[0]) && !IsDigit(target[0])
    requires target[0] != '-' && target[0] != '+' && target[0] != '.'
    requires MajorOf(v).Some? && MajorOf(v).value >= 1
    ensures StepB(part, source, target, v, d).Ok? ==> StepB(part, source, target, v, d).value == part
  {
    TargetLineBump(part, target, v);
    assert GateB(part, source, target, v, d) != Ok(true);
  }

  /**
   * Where the two copies differ on Pass B: a block holding the parent key
   * and the target name but no `<target> ` match makes V1 raise (it
   * compares an empty string) while V2 skips the block.
   */
  lemma PassBDialectsOnUnmatchedBlock(part: string, source: string, target: string, v: string)
    requires Contains(part, source) && Contains(part, target)
    requires MatchToEol(part, target + " ").None?
    ensures StepB(part, source, target, v, V1).Err?
    ensures StepB(part, source, target, v, V2) == Ok(part)
  {
    SplitDotsShape("");
  }

  /**
   * One Pass B group keeps the number of blocks and leaves every block
   * without the parent key as it was. When a version `v` is selected the
   * parent's `dependencies[target]` becomes `"^v"` in the parsed lockfile;
   * otherwise blocks and lockfile are unchanged.
   */
  lemma GroupBEffect(env: Env, d: Dialect, g: Mapping, parts: seq<string>, lock: ParsedLock)
    ensures var r := GroupB(env, d, g, parts, lock);
      r.Ok? ==>
        |r.value.0| == |parts| &&
        (forall k :: 0 <= k < |parts| && !Contains(parts[k], g.prev) ==> r.value.0[k] == parts[k])
    ensures var r := GroupB(env, d, g, parts, lock);
      var target := PackageName(g.key);
      var versions := DataVersions(env.registry(target, None));
      r.Ok? ==>
        versions.Ok? &&
        match env.selectUpgrade(g.patch, versions.value)
        case None => r.value == (parts, lock)
        case Some(v) => SetDependency(lock, g.prev, target, "^" + v) == Ok(r.value.1)
  {
    var target := PackageName(g.key);
    var versions := DataVersions(env.registry(target, None));
    if versions.Ok? && env.selectUpgrade(g.patch, versions.value).Some? {
      var v := env.selectUpgrade(g.patch, versions.value).value;
      MapEachMeaning(parts, StepBFn(g.prev, target, v, d));
    }
  }

  /**
   * The Pass B quirk at group level: with a letter-initial target and a
   * selected version of major 1 or more, a completed group rewrites no
   * block, yet still sets the parent's `dependencies[target]` to `"^v"`
   * in the parsed lockfile.
   */
  lemma GroupBLockWithoutRewrite(env: Env, d: Dialect, g: Mapping, parts: seq<string>, lock: ParsedLock, v: string)
    requires var target := PackageName(g.key);
      |target| > 0 && !IsSpace(target[0]) && !IsDigit(target[0]) &&
      target[0] != '-' && target[0] != '+' && target[0] != '.'
    requires var versions := DataVersions(env.registry(PackageName(g.key), None));
      versions.Ok? && env.selectUpgrade(g.patch, versions.value) == Some(v)
    requires MajorOf(v).Some? && MajorOf(v).value >= 1
    ensures GroupB(env, d, g, parts, lock).Ok? ==>
      GroupB(env, d, g, parts, lock).value.0 == parts &&
      SetDependency(lock, g.prev, PackageName(g.key), "^" + v) == Ok(GroupB(env, d, g, parts, lock).value.1)
  {
    PassBKeepsBlocksPastZero(parts, g.prev, PackageName(g.key), v, d);
  }

  /** Over all blocks: a letter-initial target and a major of 1 or more leave every block as it was. */
  lemma PassBKeepsBlocksPastZero(parts: seq<string>, source: string, target: string, v: string, d: Dialect)
    requires |target| > 0 && !IsSpace(target[0]) && !IsDigit(target[0])
    requires target[0] != '-' && target[0] != '+' && target[0] != '.'
    requires MajorOf(v).Some? && MajorOf(v).value >= 1
    ensures MapEach(parts, StepBFn(source, target, v, d)).Ok? ==> MapEach(parts, StepBFn(source, target, v, d)).value == parts
  {
    var step := StepBFn(source, target, v, d);
    MapEachMeaning(parts, step);
    var r := MapEach(parts, step);
    if r.Ok? {
      forall k | 0 <= k < |parts| ensures r.value[k] == parts[k] {
        PassBRefusesPastZero(parts[k], source, target, v, d);
      }
    }
  }
}
