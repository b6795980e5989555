/**
 * Grouping a list by a key, as Ruby's `group_by` and a Hash filled in a
 * loop do: the keys in the order they are first seen, and for every key
 * the values of the elements that carry it, in list order. Every function
 * here is defined by peeling the LAST element, the shape of a loop that
 * visits the list front to back.
 */
module Grouping {
  import opened Wrappers

  /** Where `k` first occurs in `ks`. */
  function FirstIndex<K(==)>(ks: seq<K>, k: K): (r: Option<nat>)
    ensures r.Some? ==> r.value < |ks| && ks[r.value] == k && forall i :: 0 <= i < r.value ==> ks[i] != k
    ensures r.None? <==> k !in ks
  {
    if |ks| == 0 then None
    else match FirstIndex(ks[..|ks| - 1], k)
      case Some(i) => Some(i)
      case None =>
        assert forall i :: 0 <= i < |ks| - 1 ==> ks[i] == ks[..|ks| - 1][i];
        if ks[|ks| - 1] == k then Some(|ks| - 1) else None
  }

  /** The distinct keys in the order they are first seen: the keys of the Hash. */
  function FirstSeen<K(==)>(ks: seq<K>): (r: seq<K>)
    ensures forall i :: 0 <= i < |r| ==> r[i] in ks
    ensures forall i :: 0 <= i < |ks| ==> ks[i] in r
  {
    if |ks| == 0 then []
    else
      var p := FirstSeen(ks[..|ks| - 1]);
      assert ks == ks[..|ks| - 1] + [ks[|ks| - 1]];
      if ks[|ks| - 1] in p then p else p + [ks[|ks| - 1]]
  }

  /** The values, in list order, of the elements whose key is `k`. */
  function Select<K(==), D>(ks: seq<K>, ds: seq<D>, k: K): seq<D>
    requires |ks| == |ds|
  {
    if |ks| == 0 then []
    else
      var p := Select(ks[..|ks| - 1], ds[..|ds| - 1], k);
      if ks[|ks| - 1] == k then p + [ds[|ds| - 1]] else p
  }

  /**
   * The Hash built by the loop: for every key in first-seen order, the
   * element that introduced it and the values of every element with it.
   */
  function GroupsFor<K(==), V, D>(ks: seq<K>, vs: seq<V>, ds: seq<D>): (r: seq<(V, seq<D>)>)
    requires |ks| == |vs| == |ds|
    ensures |r| == |FirstSeen(ks)|
  {
    var keys := FirstSeen(ks);
    seq(|keys|, j requires 0 <= j < |keys| =>
      (vs[FirstIndex(ks, keys[j]).value], Select(ks, ds, keys[j])))
  }

  // ------------------------------------------------------------ properties

  /** Every key is listed once. */
  lemma {:induction false} FirstSeenDistinct<K>(ks: seq<K>)
    ensures forall i, j :: 0 <= i < j < |FirstSeen(ks)| ==> FirstSeen(ks)[i] != FirstSeen(ks)[j]
    decreases |ks|
  {
    if |ks| > 0 {
      FirstSeenDistinct(ks[..|ks| - 1]);
    }
  }

  lemma FirstIndexExtend<K>(ks: seq<K>, x: K, k: K)
    ensures FirstIndex(ks + [x], k) ==
      if k in ks then FirstIndex(ks, k) else if x == k then Some(|ks|) else None
  {
    assert (ks + [x])[..|ks|] == ks;
  }

  /** The keys are listed in the order of their first occurrence. */
  lemma {:induction false} FirstSeenOrder<K>(ks: seq<K>)
    ensures forall i, j :: 0 <= i < j < |FirstSeen(ks)| ==>
      FirstIndex(ks, FirstSeen(ks)[i]).value < FirstIndex(ks, FirstSeen(ks)[j]).value
    decreases |ks|
  {
    if |ks| > 0 {
      var init := ks[..|ks| - 1];
      var x := ks[|ks| - 1];
      assert ks == init + [x];
      FirstSeenOrder(init);
      var r := FirstSeen(ks);
      forall i | 0 <= i < |r| ensures FirstIndex(ks, r[i]) == if r[i] in init then FirstIndex(init, r[i]) else Some(|init|) {
        FirstIndexExtend(init, x, r[i]);
      }
    }
  }

  /** A key gets as many values as it has occurrences. */
  lemma {:induction false} SelectCount<K, D>(ks: seq<K>, ds: seq<D>, k: K)
    requires |ks| == |ds|
    ensures |Select(ks, ds, k)| == multiset(ks)[k]
    decreases |ks|
  {
    if |ks| > 0 {
      SelectCount(ks[..|ks| - 1], ds[..|ds| - 1], k);
      assert ks == ks[..|ks| - 1] + [ks[|ks| - 1]];
    }
  }

  /** The first value of a key is the one of its first occurrence. */
  lemma {:induction false} SelectHead<K, D>(ks: seq<K>, ds: seq<D>, k: K)
    requires |ks| == |ds| && k in ks
    ensures |Select(ks, ds, k)| > 0 && Select(ks, ds, k)[0] == ds[FirstIndex(ks, k).value]
    decreases |ks|
  {
    var init := ks[..|ks| - 1];
    if k in init {
      SelectHead(init, ds[..|ds| - 1], k);
      FirstIndexExtend(init, ks[|ks| - 1], k);
      assert ks == init + [ks[|ks| - 1]];
    } else {
      SelectCount(init, ds[..|ds| - 1], k);
      FirstIndexExtend(init, ks[|ks| - 1], k);
      assert ks == init + [ks[|ks| - 1]];
    }
  }

  /** Every element's value is among the values of its key. */
  lemma {:induction false} SelectHas<K, D>(ks: seq<K>, ds: seq<D>, i: nat)
    requires |ks| == |ds| && i < |ks|
    ensures ds[i] in Select(ks, ds, ks[i])
    decreases |ks|
  {
    if i < |ks| - 1 {
      SelectHas(ks[..|ks| - 1], ds[..|ds| - 1], i);
    }
  }

  /** Every value of a key comes from an element with that key. */
  lemma {:induction false} SelectFrom<K, D>(ks: seq<K>, ds: seq<D>, k: K, m: nat) returns (i: nat)
    requires |ks| == |ds| && m < |Select(ks, ds, k)|
    ensures i < |ks| && ks[i] == k && ds[i] == Select(ks, ds, k)[m]
    decreases |ks|
  {
    var init := Select(ks[..|ks| - 1], ds[..|ds| - 1], k);
    if m < |init| {
      i := SelectFrom(ks[..|ks| - 1], ds[..|ds| - 1], k, m);
    } else {
      i := |ks| - 1;
    }
  }

  lemma SelectExtend<K, D>(ks: seq<K>, ds: seq<D>, x: K, d: D, k: K)
    requires |ks| == |ds|
    ensures Select(ks + [x], ds + [d], k) == Select(ks, ds, k) + (if x == k then [d] else [])
  {
    assert (ks + [x])[..|ks|] == ks && (ds + [d])[..|ds|] == ds;
  }

  /** The keys listed are exactly the keys that occur. */
  lemma FirstSeenMember<K>(ks: seq<K>, x: K)
    ensures x in FirstSeen(ks) <==> x in ks
  {
    if x in ks {
      var i :| 0 <= i < |ks| && ks[i] == x;
    }
    if x in FirstSeen(ks) {
      var i :| 0 <= i < |FirstSeen(ks)| && FirstSeen(ks)[i] == x;
    }
  }

  /** One more element with a key already seen: its value is appended to the key's group. */
  lemma GroupsForExtendSeen<K, V, D>(ks: seq<K>, vs: seq<V>, ds: seq<D>, x: K, v: V, d: D, at: nat)
    requires |ks| == |vs| == |ds|
    requires FirstIndex(FirstSeen(ks), x) == Some(at)
    ensures FirstSeen(ks + [x]) == FirstSeen(ks)
    ensures var g := GroupsFor(ks, vs, ds);
      GroupsFor(ks + [x], vs + [v], ds + [d]) == g[at := (g[at].0, g[at].1 + [d])]
  {
    var keys := FirstSeen(ks);
    assert (ks + [x])[..|ks|] == ks && (vs + [v])[..|vs|] == vs && (ds + [d])[..|ds|] == ds;
    assert keys[at] == x && x in keys;
    assert FirstSeen(ks + [x]) == keys;
    var g := GroupsFor(ks, vs, ds);
    var g2 := GroupsFor(ks + [x], vs + [v], ds + [d]);
    var want := g[at := (g[at].0, g[at].1 + [d])];
    assert |g2| == |keys| == |want|;
    forall j | 0 <= j < |keys| ensures g2[j] == want[j] {
      GroupExtendSeen(ks, vs, ds, x, v, d, at, j);
    }
    assert g2 == want;
  }

  lemma GroupExtendSeen<K, V, D>(ks: seq<K>, vs: seq<V>, ds: seq<D>, x: K, v: V, d: D, at: nat, j: nat)
    requires |ks| == |vs| == |ds|
    requires FirstIndex(FirstSeen(ks), x) == Some(at)
    requires FirstSeen(ks + [x]) == FirstSeen(ks) && j < |FirstSeen(ks)|
    ensures var g := GroupsFor(ks, vs, ds);
      GroupsFor(ks + [x], vs + [v], ds + [d])[j] == if j == at then (g[at].0, g[at].1 + [d]) else g[j]
  {
    var keys := FirstSeen(ks);
    FirstSeenDistinct(ks);
    assert j == at <==> keys[j] == x;
    FirstIndexExtend(ks, x, keys[j]);
    SelectExtend(ks, ds, x, d, keys[j]);
    assert (vs + [v])[FirstIndex(ks, keys[j]).value] == vs[FirstIndex(ks, keys[j]).value];
  }

  /** One more element with a new key: the key is listed last, with a group of the element and its value. */
  lemma GroupsForExtendNew<K, V, D>(ks: seq<K>, vs: seq<V>, ds: seq<D>, x: K, v: V, d: D)
    requires |ks| == |vs| == |ds|
    requires x !in ks
    ensures FirstSeen(ks + [x]) == FirstSeen(ks) + [x]
    ensures GroupsFor(ks + [x], vs + [v], ds + [d]) == GroupsFor(ks, vs, ds) + [(v, [d])]
  {
    var keys := FirstSeen(ks);
    FirstSeenMember(ks, x);
    assert (ks + [x])[..|ks|] == ks;
    assert FirstSeen(ks + [x]) == keys + [x];
    var g := GroupsFor(ks, vs, ds);
    var g2 := GroupsFor(ks + [x], vs + [v], ds + [d]);
    forall j | 0 <= j < |keys| ensures g2[j] == g[j] {
      GroupExtendNew(ks, vs, ds, x, v, d, j);
    }
    GroupNewLast(ks, vs, ds, x, v, d);
    assert g2 == g + [(v, [d])];
  }

  lemma GroupExtendNew<K, V, D>(ks: seq<K>, vs: seq<V>, ds: seq<D>, x: K, v: V, d: D, j: nat)
    requires |ks| == |vs| == |ds|
    requires x !in ks && FirstSeen(ks + [x]) == FirstSeen(ks) + [x] && j < |FirstSeen(ks)|
    ensures GroupsFor(ks + [x], vs + [v], ds + [d])[j] == GroupsFor(ks, vs, ds)[j]
  {
    var keys := FirstSeen(ks);
    var key := keys[j];
    assert key in ks && key != x;
    assert FirstSeen(ks + [x])[j] == key;
    FirstIndexExtend(ks, x, key);
    SelectExtend(ks, ds, x, d, key);
    var at := FirstIndex(ks, key).value;
    assert FirstIndex(ks + [x], key) == Some(at);
    assert (vs + [v])[at] == vs[at];
  }

  lemma GroupNewLast<K, V, D>(ks: seq<K>, vs: seq<V>, ds: seq<D>, x: K, v: V, d: D)
    requires |ks| == |vs| == |ds|
    requires x !in ks && FirstSeen(ks + [x]) == FirstSeen(ks) + [x]
    ensures GroupsFor(ks + [x], vs + [v], ds + [d])[|FirstSeen(ks)|] == (v, [d])
  {
    assert FirstSeen(ks + [x])[|FirstSeen(ks)|] == x;
    FirstIndexExtend(ks, x, x);
    assert FirstIndex(ks + [x], x) == Some(|ks|);
    assert (vs + [v])[|ks|] == v;
    SelectCount(ks, ds, x);
    assert Select(ks, ds, x) == [];
    SelectExtend(ks, ds, x, d, x);
    assert Select(ks + [x], ds + [d], x) == [d];
  }
}
