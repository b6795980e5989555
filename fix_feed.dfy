/**
 * The auto-fix feed and the first steps both copies of the engine take with
 * it: collecting one `{prev, key, patch}` mapping per indirect finding whose
 * path resolves (`fix_indirect_dependency`), and grouping the mappings by
 * their `[prev, key]` pair (`blocks.group_by`).
 */
module FixFeed {
  import opened Wrappers
  import opened Lockfile
  import opened PathResolver

  /** One entry of an action's `resolves` list. */
  datatype Resolve = Resolve(id: int, path: string, dev: bool, optional: bool, bundled: bool)

  /** One `{action: "update", module:, target:, resolves:}` record; `target` is nil-able. */
  datatype Action = Action(action: string, moduleName: string, target: Option<string>, resolves: seq<Resolve>)

  const NoPatch := "No patch available"

  /** `!patch.nil? && patch != "No patch available"`. */
  predicate Usable(target: Option<string>) {
    target.Some? && target.value != NoPatch
  }

  /** A resolved hop with the patch range of the finding it came from. */
  datatype Mapping = Mapping(prev: string, key: string, patch: string)

  /** The resolves of one action that add a mapping, in order. */
  function CollectFromResolves(a: Action, rs: seq<Resolve>, lock: ParsedLock, d: Dialect): seq<Mapping>
    decreases |rs|
  {
    if |rs| == 0 then []
    else
      CollectFromResolves(a, rs[..|rs| - 1], lock, d) + MappingOf(a, rs[|rs| - 1], lock, d)
  }

  /** The mapping one resolve adds: none unless the target is usable, the path indirect and resolved. */
  function MappingOf(a: Action, r: Resolve, lock: ParsedLock, d: Dialect): seq<Mapping> {
    if Usable(a.target) && a.moduleName != r.path then
      match CreateSubparentMapping(lock, r.path, d)
      case None => []
      case Some(h) => [Mapping(h.prev, h.key, a.target.value)]
    else []
  }

  /** `subparent_to_package_mapping` as `fix_indirect_dependency` builds it. */
  function CollectMappings(feed: seq<Action>, lock: ParsedLock, d: Dialect): seq<Mapping>
    decreases |feed|
  {
    if |feed| == 0 then []
    else
      var a := feed[|feed| - 1];
      CollectMappings(feed[..|feed| - 1], lock, d) + CollectFromResolves(a, a.resolves, lock, d)
  }

  /**
   * The nested `feed.each` / `resolves.each` loop of `fix_indirect_dependency`
   * that appends one `{prev, key, patch}` block per resolved path.
   */
  method CollectSubparentMappings(feed: seq<Action>, lock: ParsedLock, d: Dialect) returns (ms: seq<Mapping>)
    ensures ms == CollectMappings(feed, lock, d)
  {
    ms := [];
    for i := 0 to |feed|
      invariant ms == CollectMappings(feed[..i], lock, d)
    {
      ms := CollectFromAction(ms, feed[i], lock, d);
      assert feed[..i + 1][..i] == feed[..i];
    }
    assert feed[..|feed|] == feed;
  }

  /** The inner `resolves.each` of one action, pushing onto the mappings found so far. */
  method CollectFromAction(found: seq<Mapping>, a: Action, lock: ParsedLock, d: Dialect) returns (ms: seq<Mapping>)
    ensures ms == found + CollectFromResolves(a, a.resolves, lock, d)
  {
    ms := found;
    for j := 0 to |a.resolves|
      invariant ms == found + CollectFromResolves(a, a.resolves[..j], lock, d)
    {
      ghost var before := ms;
      ms := PushMapping(ms, a, a.resolves[j], lock, d);
      CollectFromResolvesPush(found, before, ms, a, a.resolves, j, lock, d);
    }
    assert a.resolves[..|a.resolves|] == a.resolves;
  }

  lemma CollectFromResolvesStep(a: Action, rs: seq<Resolve>, j: nat, lock: ParsedLock, d: Dialect)
    requires j < |rs|
    ensures CollectFromResolves(a, rs[..j + 1], lock, d) == CollectFromResolves(a, rs[..j], lock, d) + MappingOf(a, rs[j], lock, d)
  {
    assert rs[..j + 1][..j] == rs[..j];
  }

  /** One pass of the inner loop keeps `ms` equal to what was found plus the collected prefix. */
  lemma CollectFromResolvesPush(found: seq<Mapping>, before: seq<Mapping>, after: seq<Mapping>, a: Action, rs: seq<Resolve>, j: nat, lock: ParsedLock, d: Dialect)
    requires j < |rs|
    requires before == found + CollectFromResolves(a, rs[..j], lock, d)
    requires after == before + MappingOf(a, rs[j], lock, d)
    ensures after == found + CollectFromResolves(a, rs[..j + 1], lock, d)
  {
    CollectFromResolvesStep(a, rs, j, lock, d);
    assert after == found + (CollectFromResolves(a, rs[..j], lock, d) + MappingOf(a, rs[j], lock, d));
  }

  /** The body of the inner loop: resolve the path of one finding and push its block. */
  method PushMapping(found: seq<Mapping>, a: Action, r: Resolve, lock: ParsedLock, d: Dialect) returns (ms: seq<Mapping>)
    ensures ms == found + MappingOf(a, r, lock, d)
  {
    ms := found;
    if Usable(a.target) && a.moduleName != r.path {
      var block := CreateSubparentMapping(lock, r.path, d);
      if block.Some? {
        ms := ms + [Mapping(block.value.prev, block.value.key, a.target.value)];
      }
    }
  }

  /** A finding that contributes a mapping: usable target, indirect path, path resolved. */
  ghost predicate Contributes(a: Action, r: Resolve, lock: ParsedLock, d: Dialect, m: Mapping) {
    Usable(a.target) && a.moduleName != r.path &&
    CreateSubparentMapping(lock, r.path, d) == Some(Hop(m.prev, m.key)) && m.patch == a.target.value
  }

  lemma {:induction false} CollectFromResolvesSound(a: Action, rs: seq<Resolve>, lock: ParsedLock, d: Dialect)
    ensures forall m :: m in CollectFromResolves(a, rs, lock, d) ==>
      exists k :: 0 <= k < |rs| && Contributes(a, rs[k], lock, d, m)
    decreases |rs|
  {
    if |rs| > 0 {
      var init := rs[..|rs| - 1];
      CollectFromResolvesSound(a, init, lock, d);
      forall m | m in CollectFromResolves(a, rs, lock, d)
        ensures exists k :: 0 <= k < |rs| && Contributes(a, rs[k], lock, d, m)
      {
        if m in CollectFromResolves(a, init, lock, d) {
          var k :| 0 <= k < |init| && Contributes(a, init[k], lock, d, m);
          assert rs[k] == init[k];
        } else {
          assert Contributes(a, rs[|rs| - 1], lock, d, m);
        }
      }
    }
  }

  lemma {:induction false} CollectFromResolvesComplete(a: Action, rs: seq<Resolve>, lock: ParsedLock, d: Dialect, k: nat, h: Hop)
    requires k < |rs| && Usable(a.target) && a.moduleName != rs[k].path
    requires CreateSubparentMapping(lock, rs[k].path, d) == Some(h)
    ensures Mapping(h.prev, h.key, a.target.value) in CollectFromResolves(a, rs, lock, d)
    decreases |rs|
  {
    if k < |rs| - 1 {
      CollectFromResolvesComplete(a, rs[..|rs| - 1], lock, d, k, h);
    }
  }

  /**
   * Exactly the findings with a usable target (not nil, not "No patch
   * available"), a path different from the module name, and a path that
   * resolves contribute a mapping, carrying the action's target as patch;
   * a path that fails to resolve is dropped.
   */
  lemma {:induction false} CollectMappingsExact(feed: seq<Action>, lock: ParsedLock, d: Dialect)
    ensures forall m :: m in CollectMappings(feed, lock, d) ==>
      exists i, k :: 0 <= i < |feed| && 0 <= k < |feed[i].resolves| && Contributes(feed[i], feed[i].resolves[k], lock, d, m)
    ensures forall i, k, h ::
      (0 <= i < |feed| && 0 <= k < |feed[i].resolves| && Usable(feed[i].target) &&
       feed[i].moduleName != feed[i].resolves[k].path &&
       CreateSubparentMapping(lock, feed[i].resolves[k].path, d) == Some(h))
      ==> Mapping(h.prev, h.key, feed[i].target.value) in CollectMappings(feed, lock, d)
    decreases |feed|
  {
    if |feed| > 0 {
      var init := feed[..|feed| - 1];
      var a := feed[|feed| - 1];
      CollectMappingsExact(init, lock, d);
      CollectFromResolvesSound(a, a.resolves, lock, d);
      forall m | m in CollectMappings(feed, lock, d)
        ensures exists i, k :: 0 <= i < |feed| && 0 <= k < |feed[i].resolves| && Contributes(feed[i], feed[i].resolves[k], lock, d, m)
      {
        if m in CollectMappings(init, lock, d) {
          var i, k :| 0 <= i < |init| && 0 <= k < |init[i].resolves| && Contributes(init[i], init[i].resolves[k], lock, d, m);
          assert feed[i] == init[i];
        } else {
          var k :| 0 <= k < |a.resolves| && Contributes(a, a.resolves[k], lock, d, m);
          assert feed[|feed| - 1] == a;
        }
      }
      forall i, k, h | 0 <= i < |feed| && 0 <= k < |feed[i].resolves| && Usable(feed[i].target) &&
        feed[i].moduleName != feed[i].resolves[k].path && CreateSubparentMapping(lock, feed[i].resolves[k].path, d) == Some(h)
        ensures Mapping(h.prev, h.key, feed[i].target.value) in CollectMappings(feed, lock, d)
      {
        if i < |feed| - 1 {
          assert feed[i] == init[i];
        } else {
          CollectFromResolvesComplete(a, a.resolves, lock, d, k, h);
        }
      }
    }
  }

  /** The guard of the indirect branch: a usable target and a path other than the module itself. */
  predicate IsIndirect(a: Action, r: Resolve) {
    Usable(a.target) && a.moduleName != r.path
  }

  lemma {:induction false} NoIndirectResolveCollectsNothing(a: Action, rs: seq<Resolve>, lock: ParsedLock, d: Dialect)
    requires forall k :: 0 <= k < |rs| ==> !IsIndirect(a, rs[k])
    ensures CollectFromResolves(a, rs, lock, d) == []
    decreases |rs|
  {
    if |rs| > 0 {
      NoIndirectResolveCollectsNothing(a, rs[..|rs| - 1], lock, d);
    }
  }

  /**
   * A feed with no indirect finding (every target nil or "No patch
   * available", or every path the module name itself) yields no mapping.
   */
  lemma {:induction false} NoIndirectFindingNoMappings(feed: seq<Action>, lock: ParsedLock, d: Dialect)
    requires forall i, k :: 0 <= i < |feed| && 0 <= k < |feed[i].resolves| ==> !IsIndirect(feed[i], feed[i].resolves[k])
    ensures CollectMappings(feed, lock, d) == []
    decreases |feed|
  {
    if |feed| > 0 {
      var a := feed[|feed| - 1];
      NoIndirectFindingNoMappings(feed[..|feed| - 1], lock, d);
      NoIndirectResolveCollectsNothing(a, a.resolves, lock, d);
    }
  }

  predicate SamePair(a: Mapping, b: Mapping) {
    a.prev == b.prev && a.key == b.key
  }

  predicate PairListed(gs: seq<Mapping>, m: Mapping) {
    exists k :: 0 <= k < |gs| && SamePair(gs[k], m)
  }

  /**
   * `blocks.group_by { |h| [h[:prev], h[:key]] }`, keeping of each group the
   * member the engine reads (`versions.first` / `patch.first`): its first.
   * The `blocks.uniq` before it has its result thrown away, so it changes nothing.
   */
  function Groups(ms: seq<Mapping>): seq<Mapping>
    decreases |ms|
  {
    if |ms| == 0 then []
    else
      var g := Groups(ms[..|ms| - 1]);
      var m := ms[|ms| - 1];
      if PairListed(g, m) then g else g + [m]
  }

  /** The groups have distinct pairs, cover every mapping's pair, and are mappings of the list. */
  lemma GroupsDistinctCover(ms: seq<Mapping>)
    ensures forall i, j :: 0 <= i < j < |Groups(ms)| ==> !SamePair(Groups(ms)[i], Groups(ms)[j])
    ensures forall k :: 0 <= k < |ms| ==> PairListed(Groups(ms), ms[k])
    ensures forall i :: 0 <= i < |Groups(ms)| ==> Groups(ms)[i] in ms
  {
    GroupsDistinct(ms);
    GroupsCover(ms);
    GroupsFrom(ms);
  }

  lemma {:induction false} GroupsDistinct(ms: seq<Mapping>)
    ensures forall i, j :: 0 <= i < j < |Groups(ms)| ==> !SamePair(Groups(ms)[i], Groups(ms)[j])
    decreases |ms|
  {
    if |ms| > 0 {
      var init := ms[..|ms| - 1];
      var m := ms[|ms| - 1];
      var g := Groups(init);
      GroupsDistinct(init);
      if !PairListed(g, m) {
        var gs := Groups(ms);
        assert gs == g + [m];
        forall i, j | 0 <= i < j < |gs| ensures !SamePair(gs[i], gs[j]) {
          assert gs[i] == g[i];
          if j == |g| {
            assert gs[j] == m;
            assert !SamePair(g[i], m);
          } else {
            assert gs[j] == g[j];
          }
        }
      }
    }
  }

  lemma {:induction false} GroupsCover(ms: seq<Mapping>)
    ensures forall k :: 0 <= k < |ms| ==> PairListed(Groups(ms), ms[k])
    decreases |ms|
  {
    if |ms| > 0 {
      var init := ms[..|ms| - 1];
      var m := ms[|ms| - 1];
      var g := Groups(init);
      GroupsCover(init);
      var gs := Groups(ms);
      assert gs[..|g|] == g;
      forall k | 0 <= k < |ms| ensures PairListed(gs, ms[k]) {
        if k < |init| {
          assert ms[k] == init[k];
          assert PairListed(g, init[k]);
          var t :| 0 <= t < |g| && SamePair(g[t], init[k]);
          assert gs[t] == g[t];
        } else if !PairListed(g, m) {
          assert gs[|g|] == m;
        } else {
          var t :| 0 <= t < |g| && SamePair(g[t], m);
          assert gs[t] == g[t];
        }
      }
    }
  }

  lemma {:induction false} GroupsFrom(ms: seq<Mapping>)
    ensures forall i :: 0 <= i < |Groups(ms)| ==> Groups(ms)[i] in ms
    decreases |ms|
  {
    if |ms| > 0 {
      var init := ms[..|ms| - 1];
      var g := Groups(init);
      GroupsFrom(init);
      var gs := Groups(ms);
      assert gs[..|g|] == g;
      forall i | 0 <= i < |gs| ensures gs[i] in ms {
        if i < |g| {
          assert gs[i] == g[i] && g[i] in init;
          var t :| 0 <= t < |init| && init[t] == g[i];
          assert ms[t] == init[t];
        } else {
          assert gs[i] == ms[|ms| - 1];
        }
      }
    }
  }

  /** No earlier mapping has the pair of `ms[k]`. */
  predicate FirstWithPair(ms: seq<Mapping>, k: nat)
    requires k < |ms|
  {
    forall j :: 0 <= j < k ==> !SamePair(ms[j], ms[k])
  }

  /** Being first with one's pair survives appending mappings. */
  lemma FirstWithPairPrefix(ms: seq<Mapping>, n: nat, t: nat)
    requires t < n <= |ms| && FirstWithPair(ms[..n], t)
    ensures FirstWithPair(ms, t)
  {
    forall j | 0 <= j < t ensures !SamePair(ms[j], ms[t]) {
      assert ms[j] == ms[..n][j];
    }
  }

  /** A mapping whose pair no group lists yet is the first with its pair. */
  lemma {:induction false} UnlistedIsFirst(ms: seq<Mapping>)
    requires |ms| > 0 && !PairListed(Groups(ms[..|ms| - 1]), ms[|ms| - 1])
    ensures FirstWithPair(ms, |ms| - 1)
  {
    var init := ms[..|ms| - 1];
    var g := Groups(init);
    GroupsDistinctCover(init);
    forall j | 0 <= j < |ms| - 1 ensures !SamePair(ms[j], ms[|ms| - 1]) {
      assert ms[j] == init[j];
      assert PairListed(g, init[j]);
      var t :| 0 <= t < |g| && SamePair(g[t], init[j]);
      assert !SamePair(g[t], ms[|ms| - 1]);
    }
  }

  /**
   * One group per distinct `[prev, key]` pair, in first-seen order, each
   * represented by the first mapping with that pair (so the first finding's
   * patch range is the one used). `idx` gives the position in `ms` of each
   * group's representative.
   */
  lemma {:induction false} GroupsShape(ms: seq<Mapping>) returns (idx: seq<nat>)
    ensures |idx| == |Groups(ms)|
    ensures forall i, j :: 0 <= i < j < |idx| ==> idx[i] < idx[j]
    ensures forall i :: 0 <= i < |idx| ==> idx[i] < |ms| && Groups(ms)[i] == ms[idx[i]] && FirstWithPair(ms, idx[i])
    decreases |ms|
  {
    if |ms| == 0 {
      idx := [];
    } else {
      var n := |ms| - 1;
      var init := ms[..n];
      var idx' := GroupsShape(init);
      var g := Groups(init);
      if PairListed(g, ms[n]) {
        idx := idx';
      } else {
        UnlistedIsFirst(ms);
        idx := idx' + [n];
        assert Groups(ms) == g + [ms[n]];
      }
      forall i | 0 <= i < |idx'| ensures idx'[i] < n && ms[idx'[i]] == init[idx'[i]] && FirstWithPair(ms, idx'[i]) {
        FirstWithPairPrefix(ms, n, idx'[i]);
      }
    }
  }
}
