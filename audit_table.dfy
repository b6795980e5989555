/**
 * Reading the box tables the legacy `yarn audit --no-color` prints, as
 * lib/salus/scanners/yarn_audit.rb does: the search for the table lines in
 * `handle_legacy_yarn_audit`, `parse_output`, which turns every table into
 * one record (a Set, so equal records are kept once), and
 * `normalize_vuln`, which moves the severity row into `Severity`/`Title`
 * and adds the advisory number as `ID`. The records are returned sorted by
 * `ID`.
 */
module AuditTable {
  import opened Wrappers
  import opened RubyStrings
  import opened Traversal
  import opened Ordering
  import opened Records

  const TopStart := "\U{250C}\U{2500}"      // "┌─"
  const TopEnd := "\U{2500}\U{2510}"        // "─┐"
  const BottomStart := "\U{2514}\U{2500}"   // "└─"
  const BottomEnd := "\U{2500}\U{2518}"     // "─┘"
  const Bar := "\U{2502}"                   // "│"
  const RowStart := "\U{2502} "             // "│ "

  predicate IsTopBorder(line: string) {
    StartsWith(line, TopStart) && EndsWith(line, TopEnd)
  }

  predicate IsBottomBorder(line: string) {
    StartsWith(line, BottomStart) && EndsWith(line, BottomEnd)
  }

  // ------------------------------------------------------------ table lines

  /** `lines.index { ... }` for the top border, from `k` on. */
  function FirstTop(lines: seq<string>, k: nat): (r: Option<nat>)
    decreases |lines| - k
    ensures r.Some? ==> k <= r.value < |lines| && IsTopBorder(lines[r.value])
    ensures r.Some? ==> forall i :: k <= i < r.value ==> !IsTopBorder(lines[i])
    ensures r.None? ==> forall i :: k <= i < |lines| ==> !IsTopBorder(lines[i])
  {
    if k >= |lines| then None
    else if IsTopBorder(lines[k]) then Some(k)
    else FirstTop(lines, k + 1)
  }

  /** `lines.rindex { ... }` for the bottom border, among the first `n` lines. */
  function LastBottom(lines: seq<string>, n: nat): (r: Option<nat>)
    requires n <= |lines|
    ensures r.Some? ==> r.value < n && IsBottomBorder(lines[r.value])
    ensures r.Some? ==> forall i :: r.value < i < n ==> !IsBottomBorder(lines[i])
    ensures r.None? ==> forall i :: 0 <= i < n ==> !IsBottomBorder(lines[i])
  {
    if n == 0 then None
    else if IsBottomBorder(lines[n - 1]) then Some(n - 1)
    else LastBottom(lines, n - 1)
  }

  /**
   * `stdout_lines[table_start_pos..table_end_pos]`, None when either border
   * is missing (the scanner then reports stderr instead). A last bottom
   * border before the first top border gives the empty range.
   */
  function TableLines(lines: seq<string>): Option<seq<string>> {
    match (FirstTop(lines, 0), LastBottom(lines, |lines|))
    case (Some(s), Some(e)) => if s <= e then Some(lines[s..e + 1]) else Some([])
    case _ => None
  }

  /**
   * There is a table exactly when the output has a top and a bottom
   * border; it runs from the first top border to the last bottom border.
   */
  lemma TableLinesBounds(lines: seq<string>) returns (s: nat)
    ensures TableLines(lines).Some? <==>
      (exists i :: 0 <= i < |lines| && IsTopBorder(lines[i])) && (exists j :: 0 <= j < |lines| && IsBottomBorder(lines[j]))
    ensures TableLines(lines).Some? && |TableLines(lines).value| > 0 ==>
      var t := TableLines(lines).value;
      IsTopBorder(t[0]) && IsBottomBorder(t[|t| - 1]) &&
      s + |t| <= |lines| && t == lines[s..s + |t|] &&
      (forall i :: 0 <= i < s ==> !IsTopBorder(lines[i])) &&
      (forall i :: s + |t| <= i < |lines| ==> !IsBottomBorder(lines[i]))
  {
    s := 0;
    var top := FirstTop(lines, 0);
    var bottom := LastBottom(lines, |lines|);
    if top.Some? && bottom.Some? && top.value <= bottom.value {
      s := top.value;
      var t := lines[s..bottom.value + 1];
      assert t == lines[s..s + |t|];
    }
  }

  // ------------------------------------------------------------ parse_output

  /** The loop variables of `parse_output`: the Set so far, `vuln` and `prev_key`. */
  datatype ParseState = ParseState(vulns: seq<Record>, vuln: Option<Record>, prevKey: Option<string>)

  const Start := ParseState([], None, None)

  /** `vulns.add(vuln)`: a record equal to one already in the Set is not added again. */
  function AddOnce(vulns: seq<Record>, v: Record): (r: seq<Record>)
    ensures (exists i :: 0 <= i < |vulns| && SameRecord(vulns[i], v)) ==> r == vulns
    ensures (forall i :: 0 <= i < |vulns| ==> !SameRecord(vulns[i], v)) ==> r == vulns + [v]
  {
    if exists i :: 0 <= i < |vulns| && SameRecord(vulns[i], v) then vulns else vulns + [v]
  }

  /**
   * A `│ key │ val │` row: a non-empty key stores `val` and becomes
   * `prev_key`; an empty key appends `" " + val` to the value under
   * `prev_key`. A row with fewer than three cells (`nil.strip`), a row
   * before any top border (`nil[...]`) and a continuation without a
   * string under `prev_key` (`nil + ...`) raise.
   */
  function ParseRow(line: string, st: ParseState): Result<ParseState> {
    var cells := Split(line, Bar);
    if |cells| < 3 || st.vuln.None? then Err(MalformedTable)
    else
      var key := Strip(cells[1]);
      var val := Strip(cells[2]);
      if key != "" then Ok(ParseState(st.vulns, Some(Put(st.vuln.value, key, Str(val))), Some(key)))
      else if st.prevKey.None? then Err(MalformedTable)
      else match Get(st.vuln.value, st.prevKey.value)
        case Some(Str(s)) => Ok(st.(vuln := Some(Put(st.vuln.value, st.prevKey.value, Str(s + " " + val)))))
        case _ => Err(MalformedTable)
  }

  /**
   * One iteration of the `while` loop: a top border starts an empty record,
   * a row fills it, a bottom border adds it to the Set. A bottom border
   * before any top border adds nil, on which `normalize_vuln` raises.
   */
  function ParseLine(line: string, st: ParseState): Result<ParseState> {
    if IsTopBorder(line) then Ok(st.(vuln := Some([])))
    else if StartsWith(line, RowStart) then ParseRow(line, st)
    else if IsBottomBorder(line) then
      if st.vuln.None? then Err(MalformedTable) else Ok(st.(vulns := AddOnce(st.vulns, st.vuln.value)))
    else Ok(st)
  }

  function ParseLines(lines: seq<string>, st: ParseState): Result<ParseState>
    decreases |lines|
  {
    if |lines| == 0 then Ok(st)
    else match ParseLine(lines[0], st)
      case Err(f) => Err(f)
      case Ok(next) => ParseLines(lines[1..], next)
  }

  // ------------------------------------------------------------ normalize_vuln

  const SevLevels: seq<string> := ["info", "low", "moderate", "high", "critical"]
  const AdvisoryUrl := "https://www.npmjs.com/advisories/"

  /** The first of the severity levels, from the `k`-th on, that the record has a value for. */
  function FirstSeverity(r: Record, k: nat): (s: Option<nat>)
    decreases |SevLevels| - k
    ensures s.Some? ==> k <= s.value < |SevLevels| && Get(r, SevLevels[s.value]).Some?
    ensures s.Some? ==> forall i :: k <= i < s.value ==> Get(r, SevLevels[i]).None?
    ensures s.None? ==> forall i :: k <= i < |SevLevels| ==> Get(r, SevLevels[i]).None?
  {
    if k >= |SevLevels| then None
    else if Get(r, SevLevels[k]).Some? then Some(k)
    else FirstSeverity(r, k + 1)
  }

  /** `vuln["More info"].split(URL)[1].to_i`, where `nil.to_i` is 0. */
  function AdvisoryId(info: string): int {
    var pieces := Split(info, AdvisoryUrl);
    if |pieces| < 2 then 0 else ToI(pieces[1])
  }

  /** The record after the severity loop: the first present level moved into `Severity` and `Title`. */
  function MoveSeverity(r: Record): Record {
    match FirstSeverity(r, 0)
    case None => r
    case Some(k) =>
      var sev := SevLevels[k];
      Delete(Put(Put(r, "Severity", Str(sev)), "Title", Get(r, sev).value), sev)
  }

  /** `normalize_vuln(vuln)`; a record without a String under "More info" raises (`nil.split`). */
  function Normalized(r: Record): Result<Record> {
    var moved := MoveSeverity(r);
    match Get(moved, "More info")
    case Some(Str(info)) => Ok(Put(moved, "ID", Num(AdvisoryId(info))))
    case _ => Err(NilAccess("More info"))
  }

  /** `a['ID'] <=> b['ID']`: every normalized record has an Integer `ID`. */
  function IdOf(r: Record): int {
    match Get(r, "ID")
    case Some(Num(n)) => n
    case _ => 0
  }

  function IdLe(): (Record, Record) -> bool {
    (a: Record, b: Record) => IdOf(a) <= IdOf(b)
  }

  /** `parse_output(lines)`: the Set of records, each normalized, sorted by `ID`. */
  function ParsedOutput(lines: seq<string>): Result<seq<Record>> {
    match ParseLines(lines, Start)
    case Err(f) => Err(f)
    case Ok(st) =>
      match MapEach(st.vulns, Normalized)
      case Err(f) => Err(f)
      case Ok(normalized) => Ok(Sort(normalized, IdLe()))
  }

  // ------------------------------------------------------------ properties

  function Then(r: Result<ParseState>, lines: seq<string>): Result<ParseState> {
    match r
    case Err(f) => Err(f)
    case Ok(st) => ParseLines(lines, st)
  }

  lemma {:induction false} ParseLinesConcat(a: seq<string>, b: seq<string>, st: ParseState)
    ensures ParseLines(a + b, st) == Then(ParseLines(a, st), b)
    decreases |a|
  {
    if |a| == 0 {
      assert a + b == b;
    } else {
      assert (a + b)[0] == a[0] && (a + b)[1..] == a[1..] + b;
      var step := ParseLine(a[0], st);
      if step.Ok? {
        ParseLinesConcat(a[1..], b, step.value);
      }
    }
  }

  lemma RowIsNotBorder(line: string)
    requires StartsWith(line, RowStart)
    ensures !IsTopBorder(line) && !IsBottomBorder(line)
  {
    HeadOfPrefix(line, RowStart);
    HeadOfPrefix(line, TopStart);
    HeadOfPrefix(line, BottomStart);
  }

  /** Rows keep the record open and add nothing to the Set. */
  lemma {:induction false} RowsKeepRecordOpen(rows: seq<string>, st: ParseState)
    requires st.vuln.Some?
    requires forall k :: 0 <= k < |rows| ==> StartsWith(rows[k], RowStart)
    ensures ParseLines(rows, st).Ok? ==> ParseLines(rows, st).value.vuln.Some? && ParseLines(rows, st).value.vulns == st.vulns
    decreases |rows|
  {
    if |rows| > 0 {
      RowIsNotBorder(rows[0]);
      var step := ParseLine(rows[0], st);
      if step.Ok? {
        RowsKeepRecordOpen(rows[1..], step.value);
      }
    }
  }

  lemma TopLine(top: string, st: ParseState)
    requires IsTopBorder(top)
    ensures ParseLines([top], st) == Ok(st.(vuln := Some([])))
  {
    assert [top][1..] == [];
  }

  lemma HeadOfPrefix(s: string, p: string)
    ensures StartsWith(s, p) && |p| > 0 ==> |s| > 0 && s[0] == p[0]
  {
    if StartsWith(s, p) && |p| > 0 {
      assert s[0] == s[..|p|][0];
    }
  }

  lemma BottomLine(bottom: string, st: ParseState)
    requires IsBottomBorder(bottom) && st.vuln.Some?
    ensures ParseLines([bottom], st) == Ok(st.(vulns := AddOnce(st.vulns, st.vuln.value)))
  {
    HeadOfPrefix(bottom, BottomStart);
    HeadOfPrefix(bottom, TopStart);
    HeadOfPrefix(bottom, RowStart);
    assert [bottom][1..] == [];
  }

  /**
   * A table, top border, rows, bottom border, adds exactly the one record
   * its rows build, unless an equal record is already in the Set.
   */
  lemma OneRecordPerTable(top: string, rows: seq<string>, bottom: string, st: ParseState)
    requires IsTopBorder(top) && IsBottomBorder(bottom)
    requires forall k :: 0 <= k < |rows| ==> StartsWith(rows[k], RowStart)
    ensures var inner := ParseLines(rows, st.(vuln := Some([])));
      inner.Err? ==> ParseLines([top] + rows + [bottom], st) == inner
    ensures var inner := ParseLines(rows, st.(vuln := Some([])));
      inner.Ok? ==>
        inner.value.vuln.Some? &&
        ParseLines([top] + rows + [bottom], st) == Ok(inner.value.(vulns := AddOnce(st.vulns, inner.value.vuln.value)))
  {
    var open := st.(vuln := Some([]));
    ParseLinesConcat([top] + rows, [bottom], st);
    ParseLinesConcat([top], rows, st);
    TopLine(top, st);
    RowsKeepRecordOpen(rows, open);
    var inner := ParseLines(rows, open);
    if inner.Ok? {
      BottomLine(bottom, inner.value);
    }
  }

  /**
   * A row with a key stores the trimmed value under it and makes it
   * `prev_key`; a row with an empty key appends `" " + val` to the
   * String under `prev_key`, or raises when there is none. No other key
   * changes.
   */
  lemma RowEffect(line: string, st: ParseState, key: string, val: string, other: string)
    requires var cells := Split(line, Bar); |cells| >= 3 && Strip(cells[1]) == key && Strip(cells[2]) == val
    requires st.vuln.Some?
    ensures key != "" ==>
      ParseRow(line, st).Ok? && ParseRow(line, st).value.prevKey == Some(key) &&
      Get(ParseRow(line, st).value.vuln.value, key) == Some(Str(val)) &&
      (other != key ==> Get(ParseRow(line, st).value.vuln.value, other) == Get(st.vuln.value, other))
    ensures key == "" ==>
      (ParseRow(line, st).Ok? <==>
        st.prevKey.Some? && Get(st.vuln.value, st.prevKey.value).Some? &&
        Get(st.vuln.value, st.prevKey.value).value.Str?)
    ensures key == "" && ParseRow(line, st).Ok? ==>
      var p := st.prevKey.value;
      ParseRow(line, st).value.prevKey == st.prevKey &&
      Get(ParseRow(line, st).value.vuln.value, p) == Some(Str(Get(st.vuln.value, p).value.s + " " + val)) &&
      (other != p ==> Get(ParseRow(line, st).value.vuln.value, other) == Get(st.vuln.value, other))
  {
    if key != "" {
      PutGet(st.vuln.value, key, Str(val), key);
      PutGet(st.vuln.value, key, Str(val), other);
    } else if st.prevKey.Some? && Get(st.vuln.value, st.prevKey.value).Some? && Get(st.vuln.value, st.prevKey.value).value.Str? {
      var p := st.prevKey.value;
      var v := Str(Get(st.vuln.value, p).value.s + " " + val);
      PutGet(st.vuln.value, p, v, p);
      PutGet(st.vuln.value, p, v, other);
    }
  }

  /** No two records of the list are equal Hashes. */
  predicate NoEqualRecords(vulns: seq<Record>) {
    forall i, j :: 0 <= i < j < |vulns| ==> !SameRecord(vulns[i], vulns[j])
  }

  lemma AddOnceKeepsDistinct(vulns: seq<Record>, v: Record)
    requires NoEqualRecords(vulns)
    ensures NoEqualRecords(AddOnce(vulns, v))
  {
  }

  /** The Set never holds two equal records. */
  lemma {:induction false} ParseLinesKeepsSetDistinct(lines: seq<string>, st: ParseState)
    requires NoEqualRecords(st.vulns)
    ensures ParseLines(lines, st).Ok? ==> NoEqualRecords(ParseLines(lines, st).value.vulns)
    decreases |lines|
  {
    if |lines| > 0 {
      var step := ParseLine(lines[0], st);
      if step.Ok? {
        if st.vuln.Some? {
          AddOnceKeepsDistinct(st.vulns, st.vuln.value);
        }
        ParseLinesKeepsSetDistinct(lines[1..], step.value);
      }
    }
  }

  /**
   * `parse_output` succeeds exactly when the lines parse and every record
   * normalizes; it then returns the normalized records, each as often,
   * in ascending `ID` order.
   */
  lemma ParseOutputSorted(lines: seq<string>)
    ensures ParsedOutput(lines).Ok? <==>
      ParseLines(lines, Start).Ok? &&
      forall k :: 0 <= k < |ParseLines(lines, Start).value.vulns| ==> Normalized(ParseLines(lines, Start).value.vulns[k]).Ok?
    ensures ParsedOutput(lines).Ok? ==>
      var vs := ParseLines(lines, Start).value.vulns;
      var out := ParsedOutput(lines).value;
      SortedBy(out, IdLe()) &&
      multiset(out) == multiset(MapEach(vs, Normalized).value) &&
      |MapEach(vs, Normalized).value| == |vs| &&
      (forall k :: 0 <= k < |vs| ==> MapEach(vs, Normalized).value[k] == Normalized(vs[k]).value)
  {
    var parsed := ParseLines(lines, Start);
    if parsed.Ok? {
      MapEachMeaning(parsed.value.vulns, Normalized);
      var n := MapEach(parsed.value.vulns, Normalized);
      if n.Ok? {
        SortPermutes(n.value, IdLe());
        SortSorted(n.value, IdLe());
      }
    }
  }

  /**
   * The severity loop of `normalize_vuln`: the first severity level
   * present, in the order info, low, moderate, high, critical, becomes
   * `Severity`, its value becomes `Title` and its own key is removed; no
   * other key changes, and without a severity row nothing changes.
   */
  lemma MoveSeverityEffect(r: Record, k: string)
    ensures FirstSeverity(r, 0).None? ==> Get(MoveSeverity(r), k) == Get(r, k)
    ensures FirstSeverity(r, 0).Some? ==>
      var sev := SevLevels[FirstSeverity(r, 0).value];
      Get(MoveSeverity(r), k) ==
        if k == sev then None
        else if k == "Title" then Get(r, sev)
        else if k == "Severity" then Some(Str(sev))
        else Get(r, k)
  {
    var first := FirstSeverity(r, 0);
    if first.Some? {
      var sev := SevLevels[first.value];
      var a := Put(r, "Severity", Str(sev));
      var b := Put(a, "Title", Get(r, sev).value);
      DeleteGet(b, sev, k);
      PutGet(a, "Title", Get(r, sev).value, k);
      PutGet(r, "Severity", Str(sev), k);
    }
  }

  /**
   * `normalize_vuln` raises exactly when "More info" is not a String;
   * otherwise `ID` is the advisory number and every key other than `ID`,
   * `Severity`, `Title` and the severity levels keeps its value.
   */
  lemma NormalizedMeaning(r: Record, other: string)
    ensures Normalized(r).Ok? <==> Get(r, "More info").Some? && Get(r, "More info").value.Str?
    ensures Normalized(r).Ok? ==>
      var n := Normalized(r).value;
      Get(n, "ID") == Some(Num(AdvisoryId(Get(r, "More info").value.s))) &&
      (other != "ID" && other != "Severity" && other != "Title" && other !in SevLevels ==> Get(n, other) == Get(r, other))
  {
    MoveSeverityEffect(r, "More info");
    MoveSeverityEffect(r, other);
    var moved := MoveSeverity(r);
    var info := Get(moved, "More info");
    if info.Some? && info.value.Str? {
      PutGet(moved, "ID", Num(AdvisoryId(info.value.s)), "ID");
      PutGet(moved, "ID", Num(AdvisoryId(info.value.s)), other);
    }
  }

  /** What a normalized record holds for the severity it had: `Severity`, `Title`, and no severity key. */
  lemma NormalizedSeverity(r: Record, i: nat)
    requires Normalized(r).Ok? && FirstSeverity(r, 0).Some? && i < |SevLevels|
    ensures var n := Normalized(r).value;
      var sev := SevLevels[FirstSeverity(r, 0).value];
      Get(n, "Severity") == Some(Str(sev)) && Get(n, "Title") == Get(r, sev) && Get(n, sev) == None &&
      (SevLevels[i] != sev ==> Get(n, SevLevels[i]) == Get(r, SevLevels[i]))
  {
    var sev := SevLevels[FirstSeverity(r, 0).value];
    SevLevelsAreNotColumns();
    NormalizedGet(r, "Severity");
    MoveSeverityEffect(r, "Severity");
    NormalizedGet(r, "Title");
    MoveSeverityEffect(r, "Title");
    NormalizedGet(r, sev);
    MoveSeverityEffect(r, sev);
    NormalizedGet(r, SevLevels[i]);
    MoveSeverityEffect(r, SevLevels[i]);
  }

  lemma SevLevelsAreNotColumns()
    ensures forall i :: 0 <= i < |SevLevels| ==>
      SevLevels[i] != "ID" && SevLevels[i] != "Title" && SevLevels[i] != "Severity"
  {
  }

  /** A normalized record reads as the record with its severity moved, plus `ID`. */
  lemma NormalizedGet(r: Record, k: string)
    requires Normalized(r).Ok?
    ensures Get(Normalized(r).value, k) == if k == "ID" then Get(Normalized(r).value, "ID") else Get(MoveSeverity(r), k)
  {
    var moved := MoveSeverity(r);
    var id := Num(AdvisoryId(Get(moved, "More info").value.s));
    PutGet(moved, "ID", id, k);
  }

  /** An advisory link followed by a number gives that number as `ID`. */
  lemma AdvisoryIdOfLink(n: nat, rest: string)
    requires EndsNumeral(rest)
    requires IndexOf(DecimalString(n) + rest, AdvisoryUrl).None?
    ensures AdvisoryId(AdvisoryUrl + DecimalString(n) + rest) == n
  {
    var tail := DecimalString(n) + rest;
    var info := AdvisoryUrl + tail;
    assert info == AdvisoryUrl + DecimalString(n) + rest;
    assert OccursAt(info, AdvisoryUrl, 0);
    assert IndexOf(info, AdvisoryUrl) == Some(0);
    assert info[|AdvisoryUrl|..] == tail;
    assert RawSplit(info, AdvisoryUrl) == ["", tail];
    assert Split(info, AdvisoryUrl) == ["", tail];
    ToIOfDecimal(n, rest);
  }

  /** Without the advisory link the `ID` is 0 (`nil.to_i`). */
  lemma AdvisoryIdWithoutLink(info: string)
    requires IndexOf(info, AdvisoryUrl).None?
    ensures AdvisoryId(info) == 0
  {
    assert RawSplit(info, AdvisoryUrl) == [info];
  }

  // ------------------------------------------------------------ methods

  /** The `sev_levels.each ... break` loop and the `ID` assignment of `normalize_vuln`. */
  method NormalizeVuln(vuln: Record) returns (r: Result<Record>)
    ensures r == Normalized(vuln)
  {
    var v := vuln;
    var k := 0;
    while k < |SevLevels|
      invariant 0 <= k <= |SevLevels|
      invariant FirstSeverity(vuln, 0) == FirstSeverity(vuln, k)
      invariant v == vuln
    {
      var sev := SevLevels[k];
      var title := Get(v, sev);
      if title.Some? {
        v := Put(v, "Severity", Str(sev));
        v := Put(v, "Title", title.value);
        v := Delete(v, sev);
        break;
      }
      k := k + 1;
    }
    assert v == MoveSeverity(vuln);
    var info := Get(v, "More info");
    if info.Some? && info.value.Str? {
      r := Ok(Put(v, "ID", Num(AdvisoryId(info.value.s))));
    } else {
      r := Err(NilAccess("More info"));
    }
  }

  /** The `while i` loop of `parse_output`, with its `vuln`, `prev_key` and `vulns` variables. */
  method ScanLines(lines: seq<string>) returns (r: Result<ParseState>)
    ensures r == ParseLines(lines, Start)
  {
    var vulns: seq<Record> := [];
    var vuln: Option<Record> := None;
    var prevKey: Option<string> := None;
    var i := 0;
    while i < |lines|
      invariant 0 <= i <= |lines|
      invariant ParseLines(lines, Start) == ParseLines(lines[i..], ParseState(vulns, vuln, prevKey))
    {
      var line := lines[i];
      assert lines[i..][1..] == lines[i + 1..];
      if IsTopBorder(line) {
        vuln := Some([]);
      } else if StartsWith(line, RowStart) {
        var lineSplit := Split(line, Bar);
        if |lineSplit| < 3 || vuln.None? {
          return Err(MalformedTable);
        }
        var currKey := Strip(lineSplit[1]);
        var val := Strip(lineSplit[2]);
        if currKey != "" {
          vuln := Some(Put(vuln.value, currKey, Str(val)));
          prevKey := Some(currKey);
        } else {
          if prevKey.None? {
            return Err(MalformedTable);
          }
          var previous := Get(vuln.value, prevKey.value);
          if !(previous.Some? && previous.value.Str?) {
            return Err(MalformedTable);
          }
          vuln := Some(Put(vuln.value, prevKey.value, Str(previous.value.s + " " + val)));
        }
      } else if IsBottomBorder(line) {
        if vuln.None? {
          return Err(MalformedTable);
        }
        vulns := AddOnce(vulns, vuln.value);
      }
      i := i + 1;
    }
    r := Ok(ParseState(vulns, vuln, prevKey));
  }

  /** `vulns.map { |v| normalize_vuln(v) }`, stopping at the first record that raises. */
  method NormalizeAll(vulns: seq<Record>) returns (r: Result<seq<Record>>)
    ensures r == MapEach(vulns, Normalized)
  {
    var normalized: seq<Record> := [];
    var j := 0;
    while j < |vulns|
      invariant 0 <= j <= |vulns|
      invariant StepsTo(vulns[..j], normalized, Normalized)
    {
      var n := NormalizeVuln(vulns[j]);
      if n.Err? {
        StepsToStop(vulns, normalized, j, Normalized);
        return Err(n.fault);
      }
      StepsToExtend(vulns, normalized, j, n.value, Normalized);
      normalized := normalized + [n.value];
      j := j + 1;
    }
    StepsToDone(vulns, normalized, Normalized);
    r := Ok(normalized);
  }

  /** `parse_output(lines)`: the loop over the lines, then the normalization and the sort. */
  method ParseOutput(lines: seq<string>) returns (r: Result<seq<Record>>)
    ensures r == ParsedOutput(lines)
  {
    var st := ScanLines(lines);
    if st.Err? {
      return Err(st.fault);
    }
    var normalized := NormalizeAll(st.value.vulns);
    if normalized.Err? {
      return Err(normalized.fault);
    }
    r := Ok(Sort(normalized.value, IdLe()));
  }
}
