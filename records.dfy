/**
 * The vulnerability records of lib/salus/scanners/yarn_audit.rb: Ruby
 * Hashes from column name to value, which keep their keys in insertion
 * order. A record is modelled as the list of its entries; reading, storing
 * and deleting a key behave as `Hash#[]`, `Hash#[]=` and `Hash#delete`.
 */
module Records {
  import opened Wrappers
  import opened RubyStrings

  /** A value in a record: a String cell of the table, or the Integer `ID`. */
  datatype Value = Str(s: string) | Num(n: int)

  type Record = seq<(string, Value)>

  /** `"#{v}"`. */
  function ValueText(v: Value): string {
    match v
    case Str(s) => s
    case Num(n) => IntString(n)
  }

  predicate DistinctKeys(r: Record) {
    forall i, j :: 0 <= i < j < |r| ==> r[i].0 != r[j].0
  }

  /** `r[k]`, None standing for nil. */
  function Get(r: Record, k: string): (v: Option<Value>)
    ensures v.Some? <==> exists i :: 0 <= i < |r| && r[i].0 == k
  {
    if |r| == 0 then None
    else if r[0].0 == k then Some(r[0].1)
    else Get(r[1..], k)
  }

  /** `r[k] = v`: an existing key keeps its place; a new one goes last. */
  function Put(r: Record, k: string, v: Value): Record {
    if |r| == 0 then [(k, v)]
    else if r[0].0 == k then [(k, v)] + r[1..]
    else [r[0]] + Put(r[1..], k, v)
  }

  /** `r.delete(k)`. */
  function Delete(r: Record, k: string): Record {
    if |r| == 0 then []
    else if r[0].0 == k then Delete(r[1..], k)
    else [r[0]] + Delete(r[1..], k)
  }

  /** The record as the mapping Ruby's `Hash#==` compares. */
  function AsMap(r: Record): map<string, Value> {
    if |r| == 0 then map[] else AsMap(r[1..])[r[0].0 := r[0].1]
  }

  /** `a == b` on Hashes: the same keys with the same values, in any order. */
  predicate SameRecord(a: Record, b: Record) {
    AsMap(a) == AsMap(b)
  }

  lemma {:induction false} AsMapIsGet(r: Record, k: string)
    ensures k in AsMap(r) <==> Get(r, k).Some?
    ensures k in AsMap(r) ==> AsMap(r)[k] == Get(r, k).value
  {
    if |r| > 0 {
      AsMapIsGet(r[1..], k);
    }
  }

  /** Storing `v` under `k` is seen by the next read of `k` and by no other key. */
  lemma {:induction false} PutGet(r: Record, k: string, v: Value, k2: string)
    ensures Get(Put(r, k, v), k2) == if k2 == k then Some(v) else Get(r, k2)
  {
    if |r| > 0 && r[0].0 != k {
      PutGet(r[1..], k, v, k2);
    }
  }

  /** A deleted key reads as nil; the other keys are unaffected. */
  lemma {:induction false} DeleteGet(r: Record, k: string, k2: string)
    ensures Get(Delete(r, k), k2) == if k2 == k then None else Get(r, k2)
  {
    if |r| > 0 {
      DeleteGet(r[1..], k, k2);
    }
  }

  /** Storing into a record whose keys are distinct keeps them distinct. */
  lemma {:induction false} PutKeepsDistinct(r: Record, k: string, v: Value)
    requires DistinctKeys(r)
    ensures DistinctKeys(Put(r, k, v))
    ensures |Put(r, k, v)| == if Get(r, k).Some? then |r| else |r| + 1
  {
    if |r| > 0 && r[0].0 != k {
      PutKeepsDistinct(r[1..], k, v);
      var p := Put(r[1..], k, v);
      forall i | 0 <= i < |p| ensures p[i].0 != r[0].0 {
        PutGet(r[1..], k, v, p[i].0);
        assert Get(p, p[i].0).Some?;
      }
    }
  }
}
