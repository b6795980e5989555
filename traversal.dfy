/** Running a step that may raise over every element of a list, in order. */
module Traversal {
  import opened Wrappers

  /**
   * Running `step` over a list front to back, as an `each` whose body may
   * raise: the first element whose step raises stops the loop.
   */
  function MapEach<T, U>(parts: seq<T>, step: T -> Result<U>): Result<seq<U>>
    decreases |parts|
  {
    if |parts| == 0 then Ok([])
    else match step(parts[0])
      case Err(f) => Err(f)
      case Ok(p) =>
        match MapEach(parts[1..], step)
        case Err(f) => Err(f)
        case Ok(rest) => Ok([p] + rest)
  }

  /** The loop completes exactly when no element raises, and then maps each element by its step. */
  lemma {:induction false} MapEachMeaning<T, U>(parts: seq<T>, step: T -> Result<U>)
    ensures MapEach(parts, step).Ok? <==> forall k :: 0 <= k < |parts| ==> step(parts[k]).Ok?
    ensures MapEach(parts, step).Ok? ==>
      |MapEach(parts, step).value| == |parts| &&
      (forall k :: 0 <= k < |parts| ==> MapEach(parts, step).value[k] == step(parts[k]).value)
    decreases |parts|
  {
    if |parts| > 0 {
      MapEachMeaning(parts[1..], step);
      if step(parts[0]).Ok? && MapEach(parts[1..], step).Ok? {
        var out := MapEach(parts, step).value;
        forall k | 0 <= k < |parts| ensures out[k] == step(parts[k]).value {
          if k > 0 {
            assert parts[k] == parts[1..][k - 1];
          }
        }
      } else if step(parts[0]).Ok? {
        var k :| 0 <= k < |parts[1..]| && step(parts[1..][k]).Err?;
        assert parts[k + 1] == parts[1..][k];
      }
    }
  }

  lemma {:induction false} MapEachOk<T, U>(parts: seq<T>, out: seq<U>, step: T -> Result<U>)
    requires |parts| == |out| && forall k :: 0 <= k < |parts| ==> step(parts[k]) == Ok(out[k])
    ensures MapEach(parts, step) == Ok(out)
    decreases |parts|
  {
    if |parts| > 0 {
      MapEachOk(parts[1..], out[1..], step);
      assert out == [out[0]] + out[1..];
    }
  }

  /** The fault of the first element that raises is the fault of the loop. */
  lemma {:induction false} MapEachErr<T, U>(parts: seq<T>, i: nat, step: T -> Result<U>)
    requires i < |parts| && step(parts[i]).Err?
    requires forall k :: 0 <= k < i ==> step(parts[k]).Ok?
    ensures MapEach(parts, step) == Err(step(parts[i]).fault)
    decreases i
  {
    if i > 0 {
      MapEachErr(parts[1..], i - 1, step);
    }
  }

  /** The loop invariant of a `map` over `parts`: the first `|out|` elements have stepped to `out`. */
  ghost predicate StepsTo<T, U>(parts: seq<T>, out: seq<U>, step: T -> Result<U>) {
    |parts| == |out| && forall k :: 0 <= k < |parts| ==> step(parts[k]) == Ok(out[k])
  }

  lemma StepsToExtend<T, U>(parts: seq<T>, out: seq<U>, j: nat, u: U, step: T -> Result<U>)
    requires j < |parts| && StepsTo(parts[..j], out, step) && step(parts[j]) == Ok(u)
    ensures StepsTo(parts[..j + 1], out + [u], step)
  {
    forall k | 0 <= k < j + 1 ensures step(parts[..j + 1][k]) == Ok((out + [u])[k]) {
      if k < j {
        assert parts[..j + 1][k] == parts[..j][k];
      }
    }
  }

  lemma StepsToStop<T, U>(parts: seq<T>, out: seq<U>, j: nat, step: T -> Result<U>)
    requires j < |parts| && StepsTo(parts[..j], out, step) && step(parts[j]).Err?
    ensures MapEach(parts, step) == Err(step(parts[j]).fault)
  {
    forall k | 0 <= k < j ensures step(parts[k]).Ok? {
      assert parts[k] == parts[..j][k];
    }
    MapEachErr(parts, j, step);
  }

  lemma StepsToDone<T, U>(parts: seq<T>, out: seq<U>, step: T -> Result<U>)
    requires StepsTo(parts[..|parts|], out, step)
    ensures MapEach(parts, step) == Ok(out)
  {
    assert parts[..|parts|] == parts;
    MapEachOk(parts, out, step);
  }
}
