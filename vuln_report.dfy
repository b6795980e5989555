/**
 * Shaping the records of lib/salus/scanners/yarn_audit.rb for the report
 * and the auto-fix: `combine_vulns` (one record per advisory `ID`, the
 * `Dependency of` values of all its records sorted and joined),
 * `generate_fix_feed` (one "update" action per package and patched range),
 * `deep_copy_wo_paths` and `format_vulns`.
 */
module VulnReport {
  import opened Wrappers
  import opened RubyStrings
  import opened Ordering
  import opened Records
  import opened Traversal
  import opened Grouping
  import opened FixFeed

  // ------------------------------------------------------------ combine_vulns

  /** `vul[key]` of every record, nil where the record lacks the key. */
  function Column(vulns: seq<Record>, key: string): (r: seq<Option<Value>>)
    ensures |r| == |vulns| && forall i :: 0 <= i < |vulns| ==> r[i] == Get(vulns[i], key)
  {
    seq(|vulns|, i requires 0 <= i < |vulns| => Get(vulns[i], key))
  }

  /** `vul['ID']` of every record. */
  function Ids(vulns: seq<Record>): seq<Option<Value>> {
    Column(vulns, "ID")
  }

  /** `vul['Dependency of']` of every record. */
  function Deps(vulns: seq<Record>): seq<Option<Value>> {
    Column(vulns, "Dependency of")
  }

  /** nil, Integer and String: `<=>` compares only values of the same kind. */
  function Kind(o: Option<Value>): nat {
    match o
    case None => 0
    case Some(Num(_)) => 1
    case Some(Str(_)) => 2
  }

  /**
   * `<=>` on the values of one kind (`nil <=> nil` is 0, Integers by
   * value, Strings character by character), extended to a total order by
   * ranking the kinds.
   */
  predicate ValueLe(a: Option<Value>, b: Option<Value>) {
    if Kind(a) != Kind(b) then Kind(a) < Kind(b)
    else match (a, b)
      case (Some(Num(x)), Some(Num(y))) => x <= y
      case (Some(Str(x)), Some(Str(y))) => StrLe(x, y)
      case _ => true
  }

  function ValueOrder(): (Option<Value>, Option<Value>) -> bool {
    (a: Option<Value>, b: Option<Value>) => ValueLe(a, b)
  }

  predicate SameKind(xs: seq<Option<Value>>) {
    forall i, j :: 0 <= i < |xs| && 0 <= j < |xs| ==> Kind(xs[i]) == Kind(xs[j])
  }

  /**
   * `values.sort`: values of one kind are sorted; two values of different
   * kinds end up next to each other in any sorted list, so comparing them
   * raises `ArgumentError`.
   */
  function SortValues(xs: seq<Option<Value>>): Result<seq<Option<Value>>> {
    if SameKind(xs) then Ok(Sort(xs, ValueOrder())) else Err(IncomparableStrings)
  }

  /** `"#{v}"` as `Array#join` writes it: nil is the empty string. */
  function OptText(o: Option<Value>): string {
    match o
    case None => ""
    case Some(v) => ValueText(v)
  }

  /** `values.join(', ')`. */
  function JoinValues(xs: seq<Option<Value>>): string {
    Join(seq(|xs|, i requires 0 <= i < |xs| => OptText(xs[i])), ", ")
  }

  /** The second loop of `combine_vulns` on one group: the first record, with its values sorted and joined. */
  function Finish(g: (Record, seq<Option<Value>>)): Result<Record> {
    match SortValues(g.1)
    case Err(f) => Err(f)
    case Ok(sorted) => Ok(Put(g.0, "Dependency of", Str(JoinValues(sorted))))
  }

  /** `combine_vulns(vulns)`. */
  function Combined(vulns: seq<Record>): Result<seq<Record>> {
    MapEach(GroupsFor(Ids(vulns), vulns, Deps(vulns)), Finish)
  }

  /** `ValueLe` is a total order, so every sorting algorithm gives one list. */
  lemma ValueOrderIsTotal()
    ensures TotalPreorder(ValueOrder()) && Antisymmetric(ValueOrder())
  {
    forall a: Option<Value>, b: Option<Value> ensures ValueLe(a, b) || ValueLe(b, a) {
      if a.Some? && b.Some? && a.value.Str? && b.value.Str? {
        StrLeTotal(a.value.s, b.value.s);
      }
    }
    forall a: Option<Value>, b: Option<Value>, c: Option<Value> | ValueLe(a, b) && ValueLe(b, c)
      ensures ValueLe(a, c)
    {
      if Kind(a) == Kind(b) == Kind(c) && Kind(a) == 2 {
        StrLeTransitive(a.value.s, b.value.s, c.value.s);
      }
    }
    forall a: Option<Value>, b: Option<Value> | ValueLe(a, b) && ValueLe(b, a) ensures a == b {
      if Kind(a) == Kind(b) && Kind(a) == 2 {
        StrLeAntisymmetric(a.value.s, b.value.s);
      }
    }
  }

  /**
   * The values of one kind are sorted as `<=>` orders them, and whatever
   * sort Ruby uses, any ordered rearrangement of them is this one.
   */
  lemma SortValuesMeaning(xs: seq<Option<Value>>, other: seq<Option<Value>>)
    ensures SortValues(xs).Ok? <==> SameKind(xs)
    ensures SortValues(xs).Ok? ==>
      var s := SortValues(xs).value;
      SortedBy(s, ValueOrder()) && multiset(s) == multiset(xs) &&
      (SortedBy(other, ValueOrder()) && multiset(other) == multiset(xs) ==> other == s)
  {
    if SameKind(xs) {
      ValueOrderIsTotal();
      var s := Sort(xs, ValueOrder());
      SortPermutes(xs, ValueOrder());
      SortSorted(xs, ValueOrder());
      if SortedBy(other, ValueOrder()) && multiset(other) == multiset(xs) {
        SortedUnique(other, s, ValueOrder());
      }
    }
  }

  /**
   * One record per distinct `ID`, in the order the IDs first occur, and
   * every record's `ID` is among them.
   */
  lemma CombinedOneRecordPerId(vulns: seq<Record>)
    ensures Combined(vulns).Ok? ==>
      var out := Combined(vulns).value;
      var ids := Ids(vulns);
      |out| == |FirstSeen(ids)| &&
      (forall k :: 0 <= k < |out| ==> Get(out[k], "ID") == FirstSeen(ids)[k]) &&
      (forall k, m :: 0 <= k < m < |out| ==> Get(out[k], "ID") != Get(out[m], "ID")) &&
      (forall k, m :: 0 <= k < m < |out| ==>
        FirstIndex(ids, Get(out[k], "ID")).value < FirstIndex(ids, Get(out[m], "ID")).value) &&
      (forall i :: 0 <= i < |vulns| ==> Get(vulns[i], "ID") in FirstSeen(ids))
  {
    var ids := Ids(vulns);
    FirstSeenDistinct(ids);
    FirstSeenOrder(ids);
    if Combined(vulns).Ok? {
      var out := Combined(vulns).value;
      CombinedLength(vulns);
      forall k | 0 <= k < |out| ensures Get(out[k], "ID") == FirstSeen(ids)[k] {
        CombinedIdAt(vulns, k);
      }
    }
  }

  lemma CombinedLength(vulns: seq<Record>)
    requires Combined(vulns).Ok?
    ensures |Combined(vulns).value| == |FirstSeen(Ids(vulns))|
  {
    MapEachMeaning(GroupsFor(Ids(vulns), vulns, Deps(vulns)), Finish);
  }

  lemma CombinedIdAt(vulns: seq<Record>, k: nat)
    requires Combined(vulns).Ok? && k < |Combined(vulns).value|
    ensures k < |FirstSeen(Ids(vulns))| && Get(Combined(vulns).value[k], "ID") == FirstSeen(Ids(vulns))[k]
  {
    var groups := GroupsFor(Ids(vulns), vulns, Deps(vulns));
    MapEachMeaning(groups, Finish);
    var sorted := SortValues(groups[k].1).value;
    PutGet(groups[k].0, "Dependency of", Str(JoinValues(sorted)), "ID");
  }

  /** The `k`-th combined record, from its group. */
  lemma CombinedAt(vulns: seq<Record>, k: nat)
    requires Combined(vulns).Ok? && k < |Combined(vulns).value|
    ensures var ids := Ids(vulns);
      k < |FirstSeen(ids)| &&
      var id := FirstSeen(ids)[k];
      var values := Select(ids, Deps(vulns), id);
      SameKind(values) &&
      Combined(vulns).value[k] ==
        Put(vulns[FirstIndex(ids, id).value], "Dependency of", Str(JoinValues(Sort(values, ValueOrder()))))
  {
    var groups := GroupsFor(Ids(vulns), vulns, Deps(vulns));
    MapEachMeaning(groups, Finish);
    assert Finish(groups[k]).Ok?;
  }

  /**
   * The record of an `ID` is the first record with it, except that its
   * `Dependency of` holds the values of every record with that `ID`,
   * duplicates kept, sorted and joined with ", ".
   */
  lemma CombinedRecord(vulns: seq<Record>, k: nat, key: string)
    requires Combined(vulns).Ok? && k < |Combined(vulns).value|
    ensures var ids := Ids(vulns);
      var out := Combined(vulns).value;
      k < |FirstSeen(ids)| &&
      var id := FirstSeen(ids)[k];
      var values := Select(ids, Deps(vulns), id);
      var first := vulns[FirstIndex(ids, id).value];
      SameKind(values) &&
      (key != "Dependency of" ==> Get(out[k], key) == Get(first, key)) &&
      Get(out[k], "Dependency of") == Some(Str(JoinValues(Sort(values, ValueOrder())))) &&
      |values| == multiset(ids)[id] &&
      (forall i :: 0 <= i < |vulns| && ids[i] == id ==> Deps(vulns)[i] in values)
  {
    CombinedAt(vulns, k);
    var ids := Ids(vulns);
    var id := FirstSeen(ids)[k];
    var values := Select(ids, Deps(vulns), id);
    var first := vulns[FirstIndex(ids, id).value];
    var joined := Str(JoinValues(Sort(values, ValueOrder())));
    PutGet(first, "Dependency of", joined, key);
    PutGet(first, "Dependency of", joined, "Dependency of");
    SelectCount(ids, Deps(vulns), id);
    forall i | 0 <= i < |vulns| && ids[i] == id ensures Deps(vulns)[i] in values {
      SelectHas(ids, Deps(vulns), i);
    }
  }

  /** `combine_vulns` raises exactly when some `ID` has values of different kinds. */
  lemma CombinedFails(vulns: seq<Record>)
    ensures Combined(vulns).Ok? <==>
      forall k :: 0 <= k < |FirstSeen(Ids(vulns))| ==> SameKind(Select(Ids(vulns), Deps(vulns), FirstSeen(Ids(vulns))[k]))
  {
    var groups := GroupsFor(Ids(vulns), vulns, Deps(vulns));
    MapEachMeaning(groups, Finish);
    forall k | 0 <= k < |groups| ensures Finish(groups[k]).Ok? <==> SameKind(Select(Ids(vulns), Deps(vulns), FirstSeen(Ids(vulns))[k])) {
      assert groups[k].1 == Select(Ids(vulns), Deps(vulns), FirstSeen(Ids(vulns))[k]);
    }
  }

  /** One more record for the `uniq_vulns` loop: its `Dependency of` joins the group of its `ID`, or starts one. */
  lemma GroupByStep(vulns: seq<Record>, i: nat)
    requires i < |vulns|
    ensures var keys := FirstSeen(Ids(vulns[..i]));
      var g := GroupsFor(Ids(vulns[..i]), vulns[..i], Deps(vulns[..i]));
      var id := Get(vulns[i], "ID");
      var dep := Get(vulns[i], "Dependency of");
      var g2 := GroupsFor(Ids(vulns[..i + 1]), vulns[..i + 1], Deps(vulns[..i + 1]));
      match FirstIndex(keys, id)
      case Some(at) => FirstSeen(Ids(vulns[..i + 1])) == keys && g2 == g[at := (g[at].0, g[at].1 + [dep])]
      case None => FirstSeen(Ids(vulns[..i + 1])) == keys + [id] && g2 == g + [(vulns[i], [dep])]
  {
    var before := vulns[..i];
    var id := Get(vulns[i], "ID");
    var dep := Get(vulns[i], "Dependency of");
    assert vulns[..i + 1] == before + [vulns[i]];
    assert Ids(vulns[..i + 1]) == Ids(before) + [id];
    assert Deps(vulns[..i + 1]) == Deps(before) + [dep];
    match FirstIndex(FirstSeen(Ids(before)), id)
    case Some(at) =>
      GroupsForExtendSeen(Ids(before), before, Deps(before), id, vulns[i], dep, at);
    case None =>
      FirstSeenMember(Ids(before), id);
      GroupsForExtendNew(Ids(before), before, Deps(before), id, vulns[i], dep);
  }

  /** The first loop of `combine_vulns`: `uniq_vulns` filled record by record. */
  method GroupById(vulns: seq<Record>) returns (groups: seq<(Record, seq<Option<Value>>)>)
    ensures groups == GroupsFor(Ids(vulns), vulns, Deps(vulns))
  {
    var keys: seq<Option<Value>> := [];
    groups := [];
    var i := 0;
    while i < |vulns|
      invariant 0 <= i <= |vulns|
      invariant keys == FirstSeen(Ids(vulns[..i]))
      invariant groups == GroupsFor(Ids(vulns[..i]), vulns[..i], Deps(vulns[..i]))
    {
      var vul := vulns[i];
      var id := Get(vul, "ID");
      var dep := Get(vul, "Dependency of");
      GroupByStep(vulns, i);
      var at := FirstIndex(keys, id);
      if at.Some? {
        groups := groups[at.value := (groups[at.value].0, groups[at.value].1 + [dep])];
      } else {
        keys := keys + [id];
        groups := groups + [(vul, [dep])];
      }
      i := i + 1;
    }
    assert vulns[..i] == vulns;
  }

  /**
   * `combine_vulns(vulns)`: the `uniq_vulns` Hash, filled in one loop and
   * finished in a second.
   */
  method CombineVulns(vulns: seq<Record>) returns (r: Result<seq<Record>>)
    ensures r == Combined(vulns)
  {
    var groups := GroupById(vulns);
    var out: seq<Record> := [];
    var j := 0;
    while j < |groups|
      invariant 0 <= j <= |groups|
      invariant StepsTo(groups[..j], out, Finish)
    {
      var sorted := SortValues(groups[j].1);
      if sorted.Err? {
        StepsToStop(groups, out, j, Finish);
        return Err(sorted.fault);
      }
      var finished := Put(groups[j].0, "Dependency of", Str(JoinValues(sorted.value)));
      StepsToExtend(groups, out, j, finished, Finish);
      out := out + [finished];
      j := j + 1;
    }
    StepsToDone(groups, out, Finish);
    r := Ok(out);
  }

  // ------------------------------------------------------------ generate_fix_feed

  /** The `group_by` key of `generate_fix_feed`: `[h["Package"], h["Patched in"]]`. */
  function FeedKeys(vulns: seq<Record>): (r: seq<(Option<Value>, Option<Value>)>)
    ensures |r| == |vulns| && forall i :: 0 <= i < |vulns| ==> r[i] == (Get(vulns[i], "Package"), Get(vulns[i], "Patched in"))
  {
    seq(|vulns|, i requires 0 <= i < |vulns| => (Get(vulns[i], "Package"), Get(vulns[i], "Patched in")))
  }

  /** `{id: value["ID"], path: value["Path"], dev: false, optional: false, bundled: false}`. */
  function MakeResolve(r: Record): Result<Resolve> {
    match (Get(r, "ID"), Get(r, "Path"))
    case (Some(Num(id)), Some(Str(path))) => Ok(Resolve(id, path, false, false, false))
    case (Some(Num(_)), _) => Err(NilAccess("Path"))
    case _ => Err(NilAccess("ID"))
  }

  /** The patched range as the action's `target`; nil stays nil. */
  function Target(o: Option<Value>): Option<string> {
    match o
    case None => None
    case Some(v) => Some(ValueText(v))
  }

  /** The action of one group: its package, its patched range and one resolve per record. */
  function MakeAction(g: (Record, seq<Record>)): Result<Action> {
    match Get(g.0, "Package")
    case Some(Str(name)) =>
      (match MapEach(g.1, MakeResolve)
       case Err(f) => Err(f)
       case Ok(resolves) => Ok(Action("update", name, Target(Get(g.0, "Patched in")), resolves)))
    case _ => Err(NilAccess("Package"))
  }

  /** `generate_fix_feed` over `@vulns_w_paths`. */
  function FixFeedOf(vulns: seq<Record>): Result<seq<Action>> {
    MapEach(GroupsFor(FeedKeys(vulns), vulns, vulns), MakeAction)
  }

  /**
   * One action per distinct (Package, Patched in) pair, in the order the
   * pairs first occur; its resolves are those of every record with that
   * pair, in record order, none of them dev, optional or bundled.
   */
  lemma FixFeedAction(vulns: seq<Record>, k: nat, m: nat)
    requires FixFeedOf(vulns).Ok? && k < |FixFeedOf(vulns).value|
    ensures var keys := FeedKeys(vulns);
      var feed := FixFeedOf(vulns).value;
      |feed| == |FirstSeen(keys)| && k < |FirstSeen(keys)| &&
      var key := FirstSeen(keys)[k];
      var members := Select(keys, vulns, key);
      feed[k].action == "update" &&
      key.0 == Some(Str(feed[k].moduleName)) && feed[k].target == Target(key.1) &&
      |feed[k].resolves| == |members| == multiset(keys)[key] &&
      (m < |members| ==> MakeResolve(members[m]) == Ok(feed[k].resolves[m])) &&
      (m < |members| ==> !feed[k].resolves[m].dev && !feed[k].resolves[m].optional && !feed[k].resolves[m].bundled)
  {
    var keys := FeedKeys(vulns);
    var groups := GroupsFor(keys, vulns, vulns);
    var feed := FixFeedOf(vulns).value;
    MapEachMeaning(groups, MakeAction);
    var key := FirstSeen(keys)[k];
    var members := Select(keys, vulns, key);
    var lead := FirstIndex(keys, key).value;
    assert groups[k] == (vulns[lead], members);
    assert keys[lead] == key;
    ActionMeaning(groups[k], feed[k]);
    SelectCount(keys, vulns, key);
  }

  /** An action built from a group: its package and target come from the group's first record, one resolve per record. */
  lemma ActionMeaning(g: (Record, seq<Record>), a: Action)
    requires MakeAction(g) == Ok(a)
    ensures a.action == "update" && Get(g.0, "Package") == Some(Str(a.moduleName)) && a.target == Target(Get(g.0, "Patched in"))
    ensures |a.resolves| == |g.1|
    ensures forall m :: 0 <= m < |g.1| ==> MakeResolve(g.1[m]) == Ok(a.resolves[m])
    ensures forall m :: 0 <= m < |g.1| ==> !a.resolves[m].dev && !a.resolves[m].optional && !a.resolves[m].bundled
  {
    MapEachMeaning(g.1, MakeResolve);
  }

  /** The (Package, Patched in) pairs of the actions are pairwise different. */
  lemma FixFeedPairsDistinct(vulns: seq<Record>)
    ensures FixFeedOf(vulns).Ok? ==>
      |FixFeedOf(vulns).value| == |FirstSeen(FeedKeys(vulns))| &&
      forall k, m :: 0 <= k < m < |FirstSeen(FeedKeys(vulns))| ==> FirstSeen(FeedKeys(vulns))[k] != FirstSeen(FeedKeys(vulns))[m]
  {
    MapEachMeaning(GroupsFor(FeedKeys(vulns), vulns, vulns), MakeAction);
    FirstSeenDistinct(FeedKeys(vulns));
  }

  /** Every record has its resolve in the action of its (Package, Patched in) pair. */
  lemma FixFeedCovers(vulns: seq<Record>, i: nat) returns (k: nat, m: nat)
    requires FixFeedOf(vulns).Ok? && i < |vulns|
    ensures var feed := FixFeedOf(vulns).value;
      k < |feed| && m < |feed[k].resolves| &&
      Get(vulns[i], "Package") == Some(Str(feed[k].moduleName)) &&
      Target(Get(vulns[i], "Patched in")) == feed[k].target &&
      MakeResolve(vulns[i]) == Ok(feed[k].resolves[m])
  {
    var keys := FeedKeys(vulns);
    var key := keys[i];
    FirstSeenMember(keys, key);
    k := FirstIndex(FirstSeen(keys), key).value;
    var members := Select(keys, vulns, key);
    SelectHas(keys, vulns, i);
    m :| 0 <= m < |members| && members[m] == vulns[i];
    MapEachMeaning(GroupsFor(keys, vulns, vulns), MakeAction);
    FixFeedAction(vulns, k, m);
  }

  /** The inner loop of `generate_fix_feed`: one resolve per record of the group. */
  method ResolvesOf(values: seq<Record>) returns (r: Result<seq<Resolve>>)
    ensures r == MapEach(values, MakeResolve)
  {
    var resolves: seq<Resolve> := [];
    var n := 0;
    while n < |values|
      invariant 0 <= n <= |values|
      invariant StepsTo(values[..n], resolves, MakeResolve)
    {
      var res := MakeResolve(values[n]);
      if res.Err? {
        StepsToStop(values, resolves, n, MakeResolve);
        return Err(res.fault);
      }
      StepsToExtend(values, resolves, n, res.value, MakeResolve);
      resolves := resolves + [res.value];
      n := n + 1;
    }
    StepsToDone(values, resolves, MakeResolve);
    r := Ok(resolves);
  }

  /**
   * `generate_fix_feed(@vulns_w_paths)`: `group_by` on the pair, then one
   * action per group.
   */
  method GenerateFixFeed(vulnsWPaths: seq<Record>) returns (r: Result<seq<Action>>)
    ensures r == FixFeedOf(vulnsWPaths)
  {
    var grouped := GroupsFor(FeedKeys(vulnsWPaths), vulnsWPaths, vulnsWPaths);
    var actions: seq<Action> := [];
    var j := 0;
    while j < |grouped|
      invariant 0 <= j <= |grouped|
      invariant StepsTo(grouped[..j], actions, MakeAction)
    {
      var name := Get(grouped[j].0, "Package");
      var resolves := ResolvesOf(grouped[j].1);
      if !(name.Some? && name.value.Str?) || resolves.Err? {
        assert MakeAction(grouped[j]).Err?;
        StepsToStop(grouped, actions, j, MakeAction);
        return Err(MakeAction(grouped[j]).fault);
      }
      var action := Action("update", name.value.s, Target(Get(grouped[j].0, "Patched in")), resolves.value);
      assert MakeAction(grouped[j]) == Ok(action);
      StepsToExtend(grouped, actions, j, action, MakeAction);
      actions := actions + [action];
      j := j + 1;
    }
    StepsToDone(grouped, actions, MakeAction);
    r := Ok(actions);
  }

  // ------------------------------------------------------------ deep_copy_wo_paths

  /** `vuln.each { |k, v| vt[k] = v }`, continuing from `acc`. */
  function CopyInto(acc: Record, r: Record): Record
    decreases |r|
  {
    if |r| == 0 then acc else CopyInto(Put(acc, r[0].0, r[0].1), r[1..])
  }

  lemma {:induction false} PutAppends(r: Record, k: string, v: Value)
    requires Get(r, k).None?
    ensures Put(r, k, v) == r + [(k, v)]
  {
    if |r| > 0 {
      PutAppends(r[1..], k, v);
      assert r == [r[0]] + r[1..];
    }
  }

  lemma {:induction false} CopyIntoAppends(acc: Record, r: Record)
    requires DistinctKeys(acc + r)
    ensures CopyInto(acc, r) == acc + r
    decreases |r|
  {
    if |r| > 0 {
      assert Get(acc, r[0].0).None? by {
        forall i | 0 <= i < |acc| ensures acc[i].0 != r[0].0 {
          assert (acc + r)[i] == acc[i] && (acc + r)[|acc|] == r[0];
        }
      }
      PutAppends(acc, r[0].0, r[0].1);
      assert acc + r == (acc + [r[0]]) + r[1..];
      CopyIntoAppends(acc + [r[0]], r[1..]);
    }
  }

  /**
   * The copy has the same entries in the same order; despite its name it
   * keeps `Path`, which is why it outlives the later `vul.delete('Path')`.
   */
  lemma CopyIsSameRecord(r: Record)
    requires DistinctKeys(r)
    ensures CopyInto([], r) == r
  {
    assert [] + r == r;
    CopyIntoAppends([], r);
  }

  /** `deep_copy_wo_paths(vulns)`: every record copied key by key into a new Hash. */
  method DeepCopyWoPaths(vulns: seq<Record>) returns (vulnList: seq<Record>)
    ensures |vulnList| == |vulns|
    ensures forall k :: 0 <= k < |vulns| ==> vulnList[k] == CopyInto([], vulns[k])
  {
    vulnList := [];
    var i := 0;
    while i < |vulns|
      invariant 0 <= i <= |vulns| && |vulnList| == i
      invariant forall k :: 0 <= k < i ==> vulnList[k] == CopyInto([], vulns[k])
    {
      var vuln := vulns[i];
      var vt: Record := [];
      var j := 0;
      while j < |vuln|
        invariant 0 <= j <= |vuln|
        invariant CopyInto([], vuln) == CopyInto(vt, vuln[j..])
      {
        assert vuln[j..][1..] == vuln[j + 1..];
        vt := Put(vt, vuln[j].0, vuln[j].1);
        j := j + 1;
      }
      vulnList := vulnList + [vt];
      i := i + 1;
    }
  }

  // ------------------------------------------------------------ format_vulns

  /** `"#{k}: #{v}\n"` for every entry of a record. */
  function RecordText(r: Record): string
    decreases |r|
  {
    if |r| == 0 then "" else r[0].0 + ": " + ValueText(r[0].1) + "\n" + RecordText(r[1..])
  }

  /** `format_vulns(vulns)`: every record's lines followed by an empty line. */
  function FormatText(vulns: seq<Record>): string
    decreases |vulns|
  {
    if |vulns| == 0 then "" else RecordText(vulns[0]) + "\n" + FormatText(vulns[1..])
  }

  /** A record's text is the text of its first entries followed by that of the rest. */
  lemma {:induction false} RecordTextConcat(a: Record, b: Record)
    ensures RecordText(a + b) == RecordText(a) + RecordText(b)
    decreases |a|
  {
    if |a| > 0 {
      assert (a + b)[0] == a[0] && (a + b)[1..] == a[1..] + b;
      RecordTextConcat(a[1..], b);
    } else {
      assert a + b == b;
    }
  }

  /** The report of a list is the reports of its parts, one after the other. */
  lemma {:induction false} FormatTextConcat(a: seq<Record>, b: seq<Record>)
    ensures FormatText(a + b) == FormatText(a) + FormatText(b)
    decreases |a|
  {
    if |a| > 0 {
      assert (a + b)[0] == a[0] && (a + b)[1..] == a[1..] + b;
      FormatTextConcat(a[1..], b);
    } else {
      assert a + b == b;
    }
  }

  lemma RecordTextStep(vul: Record, j: nat)
    requires j < |vul|
    ensures RecordText(vul[..j + 1]) == RecordText(vul[..j]) + (vul[j].0 + ": " + ValueText(vul[j].1) + "\n")
  {
    assert RecordText([vul[j]]) == vul[j].0 + ": " + ValueText(vul[j].1) + "\n";
    RecordTextConcat(vul[..j], [vul[j]]);
    assert vul[..j + 1] == vul[..j] + [vul[j]];
  }

  lemma FormatTextStep(vulns: seq<Record>, i: nat)
    requires i < |vulns|
    ensures FormatText(vulns[..i + 1]) == FormatText(vulns[..i]) + RecordText(vulns[i]) + "\n"
  {
    assert FormatText([vulns[i]]) == RecordText(vulns[i]) + "\n";
    FormatTextConcat(vulns[..i], [vulns[i]]);
    assert vulns[..i + 1] == vulns[..i] + [vulns[i]];
  }

  /** The inner loop of `format_vulns`: one line per entry of the record. */
  method AppendRecord(prefix: string, vul: Record) returns (str: string)
    ensures str == prefix + RecordText(vul)
  {
    str := prefix;
    var j := 0;
    while j < |vul|
      invariant 0 <= j <= |vul|
      invariant str == prefix + RecordText(vul[..j])
    {
      var line := vul[j].0 + ": " + ValueText(vul[j].1) + "\n";
      RecordTextStep(vul, j);
      str := str + line;
      j := j + 1;
    }
    assert vul[..j] == vul;
  }

  /** `format_vulns(vulns)`: the string built entry by entry. */
  method FormatVulns(vulns: seq<Record>) returns (str: string)
    ensures str == FormatText(vulns)
  {
    str := "";
    var i := 0;
    while i < |vulns|
      invariant 0 <= i <= |vulns|
      invariant str == FormatText(vulns[..i])
    {
      var vul := vulns[i];
      str := AppendRecord(str, vul);
      str := str + "\n";
      FormatTextStep(vulns, i);
      i := i + 1;
    }
    assert vulns[..i] == vulns;
  }
}
