/**
 * `is_major_bump`, identical in lib/salus/scanners/yarn_audit.rb and
 * lib/salus/autofixers/yarn_audit_v2.rb. The `gsub`/`sub` calls that look like
 * they clean the version strings have their results thrown away, so the
 * comparison is between `to_i` of the text before the first `.` of each
 * argument, exactly as written. When `split('.')` of either argument yields
 * nothing (the empty string, or only dots), Ruby compares with nil and raises.
 */
module VersionPolicy {
  import opened Wrappers
  import opened RubyStrings

  /** `v.split('.').map(&:to_i).first`; None where Ruby gets nil. */
  function MajorOf(v: string): Option<int> {
    var pieces := Split(v, ".");
    if |pieces| == 0 then None else Some(ToI(pieces[0]))
  }

  /** Ruby's `is_major_bump(current, updated)`. */
  function IsMajorBump(current: string, updated: string): Result<bool> {
    var cur := MajorOf(current);
    var upd := MajorOf(updated);
    if upd.None? || cur.None? then Err(IncomparableVersion)
    else Ok(upd.value > cur.value)
  }

  /** The text before the first `.` (all of `v` when it has none). */
  function FirstPiece(v: string): (r: string)
    ensures forall k :: 0 <= k < |r| ==> r[k] != '.'
  {
    match IndexOf(v, ".")
    case None =>
      assert forall k :: 0 <= k < |v| ==> v[k] != '.' by {
        forall k | 0 <= k < |v| ensures v[k] != '.' {
          assert !OccursAt(v, ".", k) && v[k..k + 1] == [v[k]];
        }
      }
      v
    case Some(i) =>
      assert forall k :: 0 <= k < i ==> v[k] != '.' by {
        forall k | 0 <= k < i ensures v[k] != '.' {
          assert !OccursAt(v, ".", k) && v[k..k + 1] == [v[k]];
        }
      }
      v[..i]
  }

  predicate OnlyDots(v: string) {
    forall k :: 0 <= k < |v| ==> v[k] == '.'
  }

  predicate AllEmpty(fields: seq<string>) {
    forall k :: 0 <= k < |fields| ==> fields[k] == ""
  }

  lemma NotOnlyDots(v: string)
    requires |v| > 0 && !OccursAt(v, ".", 0)
    ensures v[0] != '.' && !OnlyDots(v)
  {
    assert v[0..1] == [v[0]];
  }

  lemma OnlyDotsAfterDot(v: string)
    requires |v| > 0 && v[0] == '.'
    ensures OnlyDots(v) <==> OnlyDots(v[1..])
  {
    if OnlyDots(v[1..]) {
      forall k | 0 <= k < |v| ensures v[k] == '.' {
        if k > 0 {
          assert v[k] == v[1..][k - 1];
        }
      }
    }
  }

  lemma AllEmptyAfterEmpty(tail: seq<string>)
    ensures AllEmpty([""] + tail) <==> AllEmpty(tail)
  {
    if AllEmpty([""] + tail) {
      forall k | 0 <= k < |tail| ensures tail[k] == "" {
        assert tail[k] == ([""] + tail)[k + 1];
      }
    }
  }

  lemma {:induction false} RawFieldsEmptyIff(v: string)
    ensures AllEmpty(RawSplit(v, ".")) <==> OnlyDots(v)
    decreases |v|
  {
    var fields := RawSplit(v, ".");
    match IndexOf(v, ".")
    case None =>
      assert fields == [v];
      if v != "" {
        assert !OccursAt(v, ".", 0);
        NotOnlyDots(v);
        assert fields[0] != "";
      }
    case Some(i) =>
      var rest := v[i + 1..];
      var tail := RawSplit(rest, ".");
      assert fields == [v[..i]] + tail;
      RawFieldsEmptyIff(rest);
      if i > 0 {
        assert !OccursAt(v, ".", 0);
        NotOnlyDots(v);
        assert fields[0] != "";
      } else {
        assert OccursAt(v, ".", 0) && v[0..1] == ".";
        assert v[..i] == "" && rest == v[1..];
        AllEmptyAfterEmpty(tail);
        OnlyDotsAfterDot(v);
      }
  }

  lemma SplitDotsShape(v: string)
    ensures |Split(v, ".")| == 0 <==> OnlyDots(v)
    ensures |Split(v, ".")| > 0 ==> Split(v, ".")[0] == FirstPiece(v)
  {
    var raw := RawSplit(v, ".");
    RawFieldsEmptyIff(v);
    if |Split(v, ".")| == 0 {
      assert AllEmpty(raw);
    }
  }

  /**
   * The meaning of `is_major_bump`: it raises exactly when either argument is
   * empty or only dots; otherwise it is true exactly when `to_i` of the
   * updated version's first `.`-piece exceeds `to_i` of the current one's.
   * Equal or lower majors give false.
   */
  lemma MajorBumpIff(current: string, updated: string)
    ensures IsMajorBump(current, updated).Err? <==> OnlyDots(current) || OnlyDots(updated)
    ensures IsMajorBump(current, updated).Ok? ==>
      (IsMajorBump(current, updated).value <==> ToI(FirstPiece(updated)) > ToI(FirstPiece(current)))
  {
    SplitDotsShape(current);
    SplitDotsShape(updated);
  }

  /** A version written out as `<n>.<rest>` (or just `<n>`) has major `n`. */
  lemma MajorOfNumeric(n: nat, rest: string)
    requires rest == [] || rest[0] == '.'
    ensures MajorOf(DecimalString(n) + rest) == Some(n)
  {
    {
      var v := DecimalString(n) + rest;
      SplitDotsShape(v);
      assert v[0] != '.';
      var i := |DecimalString(n)|;
      assert forall k :: 0 <= k < i ==> !OccursAt(v, ".", k) by {
        forall k | 0 <= k < i ensures !OccursAt(v, ".", k) {
          assert v[k] == DecimalString(n)[k];
        }
      }
      if rest == [] {
        assert v == DecimalString(n);
        assert IndexFrom(v, ".", 0).None?;
      } else {
        assert OccursAt(v, ".", i);
        assert IndexOf(v, ".") == Some(i);
        assert FirstPiece(v) == DecimalString(n) + [];
      }
      assert FirstPiece(v) == DecimalString(n) + [];
      ToIOfDecimal(n, []);
    }
  }

  /**
   * Text that starts with a letter (a package name, or a `^`/`~` range) has
   * major 0: `"^1.2.0"` and the whole line `lodash "^4.17.0"` both give 0.
   */
  lemma MajorOfNonNumeric(s: string)
    requires |s| > 0 && !IsSpace(s[0]) && !IsDigit(s[0]) && s[0] != '-' && s[0] != '+' && s[0] != '.'
    ensures MajorOf(s) == Some(0)
  {
    SplitDotsShape(s);
    var f := FirstPiece(s);
    match IndexOf(s, ".")
    case None =>
    case Some(i) =>
      assert i != 0;
      assert f[0] == s[0];
    ToIOfNonNumeric(f);
  }

  /**
   * A caret-pinned current value never lets a version with major 1 or more
   * through: `is_major_bump("^1.2.0", "1.4.0")` is true, so a package
   * declared as `"^1.2.0"` is left alone by every upgrade past 0.x.
   */
  lemma CaretRangeBlocksUpgrade(rest: string, n: nat, tail: string)
    requires n >= 1 && (tail == [] || tail[0] == '.')
    ensures IsMajorBump("^" + rest, DecimalString(n) + tail) == Ok(true)
  {
    MajorOfNonNumeric("^" + rest);
    MajorOfNumeric(n, tail);
  }

  /** Same-major upgrades pass the gate; higher majors are refused. */
  lemma NumericGate(cur: nat, curTail: string, upd: nat, updTail: string)
    requires curTail == [] || curTail[0] == '.'
    requires updTail == [] || updTail[0] == '.'
    ensures IsMajorBump(DecimalString(cur) + curTail, DecimalString(upd) + updTail) == Ok(upd > cur)
  {
    MajorOfNumeric(cur, curTail);
    MajorOfNumeric(upd, updTail);
    BumpOfMajors(DecimalString(cur) + curTail, cur, DecimalString(upd) + updTail, upd);
  }

  lemma BumpOfMajors(current: string, cur: int, updated: string, upd: int)
    requires MajorOf(current) == Some(cur) && MajorOf(updated) == Some(upd)
    ensures IsMajorBump(current, updated) == Ok(upd > cur)
  {
  }
}
