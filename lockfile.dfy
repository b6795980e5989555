/**
 * The parsed yarn.lock as the auto-fixer sees it: an ordered hash from entry
 * key (`name@range`, possibly several joined with ", ") to the entry's fields.
 * The engine only reads and writes the dependency sub-hashes
 * (`dependencies`, `optionalDependencies`, `peerDependencies`), so an entry is
 * modelled as the map of those sections. The parser that produces this value
 * (`Salus::YarnLockfileFormatter#format`) is not part of this model.
 */
module Lockfile {
  import opened Wrappers

  datatype Entry = Entry(sections: map<string, map<string, string>>)

  predicate KeysDistinct(l: seq<(string, Entry)>) {
    forall i, j | 0 <= i < j < |l| :: l[i].0 != l[j].0
  }

  /** A Ruby Hash: insertion-ordered, each key once. */
  type ParsedLock = l: seq<(string, Entry)> | KeysDistinct(l) witness []

  /** `entry[section]&.[](name)`: the range `section` declares for `name`, if any. */
  function Declared(e: Entry, section: string, name: string): Option<string> {
    if section in e.sections && name in e.sections[section] then Some(e.sections[section][name])
    else None
  }

  /** Where `key` sits in the hash, if it is there. */
  function IndexOfKey(l: ParsedLock, key: string, k: nat): (r: Option<nat>)
    decreases |l| - k
    ensures r.Some? ==> k <= r.value < |l| && l[r.value].0 == key
    ensures r.None? ==> forall i :: k <= i < |l| ==> l[i].0 != key
  {
    if k >= |l| then None
    else if l[k].0 == key then Some(k)
    else IndexOfKey(l, key, k + 1)
  }

  /**
   * `lock[source]["dependencies"][target] = value`, written back into the
   * hash. Ruby raises when `source` is not a key (`nil["dependencies"]`) or
   * when that entry has no `dependencies` section (`nil[target] = ...`).
   */
  function SetDependency(l: ParsedLock, source: string, target: string, value: string): (r: Result<ParsedLock>)
    ensures r.Ok? <==> exists i :: 0 <= i < |l| && l[i].0 == source && "dependencies" in l[i].1.sections
    ensures r.Ok? ==> |r.value| == |l| && forall i :: 0 <= i < |l| ==> r.value[i].0 == l[i].0
    ensures r.Ok? ==> forall i :: 0 <= i < |l| && l[i].0 != source ==> r.value[i] == l[i]
    ensures r.Ok? ==> forall i :: 0 <= i < |l| && l[i].0 == source ==>
      var deps := l[i].1.sections["dependencies"];
      r.value[i].1 == Entry(l[i].1.sections["dependencies" := deps[target := value]])
  {
    match IndexOfKey(l, source, 0)
    case None => Err(NilAccess("parsed yarn.lock entry"))
    case Some(i) =>
      var e := l[i].1;
      if "dependencies" !in e.sections then Err(NilAccess("dependencies section"))
      else
        var updated := Entry(e.sections["dependencies" := e.sections["dependencies"][target := value]]);
        var r := l[i := (source, updated)];
        assert forall a :: 0 <= a < |l| ==> r[a].0 == l[a].0;
        Ok(r)
  }
}
