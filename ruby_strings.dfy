/**
 * The handful of Ruby String operations the auto-fixer relies on, with the
 * edge cases Ruby gives them: `include?`, `start_with?`, `sub` with a string
 * pattern, the regex `/(lit .*)/` (a literal followed by the rest of its line),
 * `split` with a literal delimiter (trailing empty fields dropped), `split(" ")`
 * (awk-style), `split(/^\n/)` (cut at blank lines), `strip`, `tr(chars, "")`
 * and `to_i`.
 */
module RubyStrings {
  import opened Wrappers

  predicate StartsWith(s: string, p: string) {
    |p| <= |s| && s[..|p|] == p
  }

  predicate EndsWith(s: string, p: string) {
    |p| <= |s| && s[|s| - |p|..] == p
  }

  predicate OccursAt(s: string, p: string, i: nat) {
    i + |p| <= |s| && s[i..i + |p|] == p
  }

  /** The first index at or after `k` where `p` occurs in `s`. */
  function IndexFrom(s: string, p: string, k: nat): (r: Option<nat>)
    decreases |s| + 1 - k
    ensures r.Some? ==> k <= r.value && OccursAt(s, p, r.value)
    ensures r.Some? ==> forall j :: k <= j < r.value ==> !OccursAt(s, p, j)
    ensures r.None? ==> forall j :: k <= j ==> !OccursAt(s, p, j)
  {
    if k + |p| > |s| then None
    else if s[k..k + |p|] == p then Some(k)
    else IndexFrom(s, p, k + 1)
  }

  function IndexOf(s: string, p: string): Option<nat> {
    IndexFrom(s, p, 0)
  }

  /** The first occurrence is the one `index` finds. */
  lemma IndexOfFirst(s: string, p: string, i: nat)
    requires OccursAt(s, p, i)
    requires forall j :: 0 <= j < i ==> !OccursAt(s, p, j)
    ensures IndexOf(s, p) == Some(i)
  {
  }

  /** Ruby's `s.include?(p)`. */
  predicate Contains(s: string, p: string) {
    IndexOf(s, p).Some?
  }

  /** Ruby's `s.sub(p, rep)` with a String pattern: only the first occurrence is replaced. */
  function SubFirst(s: string, p: string, rep: string): string {
    match IndexOf(s, p)
    case None => s
    case Some(i) => s[..i] + rep + s[i + |p|..]
  }

  /** `sub(p, rep)` where the first `p` starts right after `pre`: `pre` and what follows `p` are kept. */
  lemma SubFirstAt(s: string, pre: string, p: string, rest: string, rep: string)
    requires s == pre + p + rest
    requires IndexOf(s, p) == Some(|pre|)
    ensures SubFirst(s, p, rep) == pre + rep + rest
  {
    assert s[..|pre|] == pre && s[|pre| + |p|..] == rest;
  }

  /** The end of the line that position `i` is on: the next newline, or the end of `s`. */
  function LineEnd(s: string, i: nat): (j: nat)
    requires i <= |s|
    decreases |s| - i
    ensures i <= j <= |s| && (j < |s| ==> s[j] == '\n')
    ensures forall k :: i <= k < j ==> s[k] != '\n'
  {
    if i == |s| || s[i] == '\n' then i else LineEnd(s, i + 1)
  }

  /** The span of the leftmost match of the regex `/(lit.*)/`: `lit` up to the end of its line. */
  function MatchToEol(s: string, lit: string): (r: Option<(nat, nat)>)
    ensures r.Some? ==> r.value.0 + |lit| <= r.value.1 <= |s| && OccursAt(s, lit, r.value.0)
  {
    match IndexOf(s, lit)
    case None => None
    case Some(i) => Some((i, LineEnd(s, i + |lit|)))
  }

  /** `s.match(/(lit.*)/).to_s`: the matched text, or "" when nothing matches. */
  function MatchText(s: string, lit: string): string {
    match MatchToEol(s, lit)
    case None => ""
    case Some((i, j)) => s[i..j]
  }

  /** `s.sub(/(lit.*)/, rep)`: the first such match replaced by `rep`. */
  function SubToEol(s: string, lit: string, rep: string): string {
    match MatchToEol(s, lit)
    case None => s
    case Some((i, j)) => s[..i] + rep + s[j..]
  }

  /** `s.tr(chars, "")`: every character of the set removed. */
  function DeleteChars(s: string, chars: set<char>): (r: string)
    ensures forall k :: 0 <= k < |r| ==> r[k] !in chars
  {
    if |s| == 0 then ""
    else (if s[0] in chars then "" else [s[0]]) + DeleteChars(s[1..], chars)
  }

  lemma {:induction false} DeleteCharsAppend(a: string, b: string, chars: set<char>)
    ensures DeleteChars(a + b, chars) == DeleteChars(a, chars) + DeleteChars(b, chars)
    decreases |a|
  {
    if |a| == 0 {
      assert a + b == b;
    } else {
      assert (a + b)[1..] == a[1..] + b;
      DeleteCharsAppend(a[1..], b, chars);
    }
  }

  /** `tr` leaves a string with none of the deleted characters as it is. */
  lemma {:induction false} DeleteCharsKeeps(s: string, chars: set<char>)
    requires forall k :: 0 <= k < |s| ==> s[k] !in chars
    ensures DeleteChars(s, chars) == s
    decreases |s|
  {
    if |s| > 0 {
      DeleteCharsKeeps(s[1..], chars);
    }
  }

  lemma DeleteCharsKeepsPrefix(a: string, b: string, chars: set<char>)
    requires forall k :: 0 <= k < |a| ==> a[k] !in chars
    ensures DeleteChars(a + b, chars) == a + DeleteChars(b, chars)
  {
    DeleteCharsAppend(a, b, chars);
    DeleteCharsKeeps(a, chars);
  }

  /** `tr` on a string made only of deleted characters leaves nothing. */
  lemma {:induction false} DeleteCharsDropsAll(s: string, chars: set<char>)
    requires forall k :: 0 <= k < |s| ==> s[k] in chars
    ensures DeleteChars(s, chars) == ""
    decreases |s|
  {
    if |s| > 0 {
      DeleteCharsDropsAll(s[1..], chars);
    }
  }

  lemma {:induction false} LineEndAt(s: string, i: nat, j: nat)
    requires i <= j <= |s| && (j == |s| || s[j] == '\n')
    requires forall k :: i <= k < j ==> s[k] != '\n'
    ensures LineEnd(s, i) == j
    decreases j - i
  {
    if i < j {
      LineEndAt(s, i + 1, j);
    }
  }

  /**
   * `sub(/(lit.*)/, rep)` on a line `pre + lit + tail`: the text before the
   * first `lit` (the indentation) and everything after that line are kept;
   * `lit` and the rest of its line become `rep`.
   */
  lemma SubToEolLine(s: string, pre: string, lit: string, tail: string, post: string, rep: string)
    requires s == pre + lit + tail + post
    requires IndexOf(s, lit) == Some(|pre|)
    requires forall k :: 0 <= k < |tail| ==> tail[k] != '\n'
    requires post == [] || post[0] == '\n'
    ensures MatchText(s, lit) == lit + tail
    ensures SubToEol(s, lit, rep) == pre + rep + post
  {
    var j := |pre| + |lit| + |tail|;
    forall k | |pre| + |lit| <= k < j ensures s[k] != '\n' {
      assert s[k] == tail[k - |pre| - |lit|];
    }
    LineEndAt(s, |pre| + |lit|, j);
    assert s[|pre|..j] == lit + tail;
    assert s[..|pre|] == pre && s[j..] == post;
  }

  /** ASCII whitespace as Ruby's `to_i` and `split(" ")` see it. */
  predicate IsSpace(c: char) {
    c == ' ' || c == '\t' || c == '\n' || c == '\U{0B}' || c == '\U{0C}' || c == '\r'
  }

  /** What `strip` removes: whitespace and the null character. */
  predicate IsStripped(c: char) {
    IsSpace(c) || c == '\0'
  }

  predicate IsDigit(c: char) {
    '0' <= c <= '9'
  }

  function SkipSpace(s: string): (r: string)
    ensures |r| <= |s| && r == s[|s| - |r|..]
    ensures |r| > 0 ==> !IsSpace(r[0])
  {
    if |s| > 0 && IsSpace(s[0]) then SkipSpace(s[1..]) else s
  }

  function LStrip(s: string): string {
    if |s| > 0 && IsStripped(s[0]) then LStrip(s[1..]) else s
  }

  function RStrip(s: string): string {
    if |s| > 0 && IsStripped(s[|s| - 1]) then RStrip(s[..|s| - 1]) else s
  }

  /** Ruby's `strip`. */
  function Strip(s: string): string {
    RStrip(LStrip(s))
  }

  /**
   * The digits of the numeral at the start of `s` as `to_i` reads it: a run
   * of decimal digits in which a single `_` may separate two digits. The
   * underscores are dropped, so `1_000` gives `1000` and `1__0` gives `1`.
   */
  function NumeralDigits(s: string): (r: string)
    ensures forall k :: 0 <= k < |r| ==> IsDigit(r[k])
  {
    if |s| > 0 && IsDigit(s[0]) then
      if |s| > 2 && s[1] == '_' && IsDigit(s[2]) then [s[0]] + NumeralDigits(s[2..])
      else [s[0]] + NumeralDigits(s[1..])
    else ""
  }

  /** What may follow a numeral without extending it: nothing, or neither a digit nor `_` and a digit. */
  predicate EndsNumeral(rest: string) {
    rest == [] || (!IsDigit(rest[0]) && !(rest[0] == '_' && |rest| > 1 && IsDigit(rest[1])))
  }

  function DigitValue(c: char): nat
    requires IsDigit(c)
  {
    c as int - '0' as int
  }

  function DecimalValue(ds: string): nat
    requires forall k :: 0 <= k < |ds| ==> IsDigit(ds[k])
  {
    if |ds| == 0 then 0
    else DecimalValue(ds[..|ds| - 1]) * 10 + DigitValue(ds[|ds| - 1])
  }

  function DigitChar(d: nat): (c: char)
    requires d < 10
    ensures IsDigit(c)
  {
    ('0' as int + d) as char
  }

  /** Ruby's `Integer#to_s` for a non-negative integer. */
  function DecimalString(n: nat): (r: string)
    ensures |r| > 0 && forall k :: 0 <= k < |r| ==> IsDigit(r[k])
  {
    if n < 10 then [DigitChar(n)] else DecimalString(n / 10) + [DigitChar(n % 10)]
  }

  function IntString(n: int): string {
    if n < 0 then "-" + DecimalString(-n) else DecimalString(n)
  }

  /**
   * Ruby's `String#to_i`: leading whitespace, an optional sign, then the
   * numeral that follows (digits, single underscores between them); 0 when
   * there is none.
   */
  function ToI(s: string): int {
    var t := SkipSpace(s);
    if |t| > 0 && t[0] == '-' then 0 - DecimalValue(NumeralDigits(t[1..]))
    else if |t| > 0 && t[0] == '+' then DecimalValue(NumeralDigits(t[1..]))
    else DecimalValue(NumeralDigits(t))
  }

  lemma {:induction false} DecimalRoundTrip(n: nat)
    ensures DecimalValue(DecimalString(n)) == n
  {
    if n >= 10 {
      var ds := DecimalString(n);
      assert ds[..|ds| - 1] == DecimalString(n / 10);
      DecimalRoundTrip(n / 10);
    }
  }

  lemma {:induction false} NumeralStopsAt(ds: string, rest: string)
    requires forall k :: 0 <= k < |ds| ==> IsDigit(ds[k])
    requires EndsNumeral(rest)
    ensures NumeralDigits(ds + rest) == ds
  {
    if |ds| > 0 {
      assert (ds + rest)[1..] == ds[1..] + rest;
      if |ds| == 1 {
        assert ds + rest == [ds[0]] + rest;
      }
      NumeralStopsAt(ds[1..], rest);
    }
  }

  /** `to_i` reads back what `to_s` wrote, whatever text follows that does not continue the numeral. */
  lemma ToIOfDecimal(n: nat, rest: string)
    requires EndsNumeral(rest)
    ensures ToI(DecimalString(n) + rest) == n
  {
    var s := DecimalString(n) + rest;
    assert !IsSpace(s[0]) && s[0] != '-' && s[0] != '+';
    assert SkipSpace(s) == s;
    NumeralStopsAt(DecimalString(n), rest);
    DecimalRoundTrip(n);
  }

  /** A single `_` between two digits is dropped and the numeral goes on after it. */
  lemma NumeralSkipsUnderscore(d: char, e: char, rest: string)
    requires IsDigit(d) && IsDigit(e)
    ensures NumeralDigits([d, '_', e] + rest) == [d] + NumeralDigits([e] + rest)
  {
    assert ([d, '_', e] + rest)[2..] == [e] + rest;
  }

  /** `"1_0".to_i` is 10. */
  lemma ToIUnderscoreSkipped()
    ensures ToI("1_0") == 10
  {
    NumeralOneUnderscoreZero();
    ToIOfDigitFirst("1_0");
    DecimalValueTen();
  }

  /** Text that starts with a digit is read as its numeral. */
  lemma ToIOfDigitFirst(s: string)
    requires |s| > 0 && IsDigit(s[0])
    ensures ToI(s) == DecimalValue(NumeralDigits(s))
  {
    assert !IsSpace(s[0]);
    var t := SkipSpace(s);
    assert t == s;
    assert t[0] != '-' && t[0] != '+';
  }

  lemma DecimalValueTen()
    ensures DecimalValue("10") == 10
  {
    assert "10"[..1] == "1" && "1"[..0] == "";
  }

  lemma NumeralOneUnderscoreZero()
    ensures NumeralDigits("1_0") == "10"
  {
    NumeralSkipsUnderscore('1', '0', "");
    NumeralStopsAt("0", "");
    assert ['1', '_', '0'] + "" == "1_0" && ['0'] + "" == "0" && "0" + "" == "0";
  }

  /** A double underscore, or one with no digit after it, ends the numeral. */
  lemma ToIUnderscoreEnds()
    ensures ToI("1__0") == 1
    ensures ToI("7_") == 7
  {
    assert DecimalString(1) + "__0" == "1__0" && EndsNumeral("__0");
    ToIOfDecimal(1, "__0");
    assert DecimalString(7) + "_" == "7_" && EndsNumeral("_");
    ToIOfDecimal(7, "_");
  }

  /** A text that starts with neither whitespace, a sign nor a digit has `to_i` zero. */
  lemma ToIOfNonNumeric(s: string)
    requires |s| > 0 && !IsSpace(s[0]) && !IsDigit(s[0]) && s[0] != '-' && s[0] != '+'
    ensures ToI(s) == 0
  {
    assert SkipSpace(s) == s;
  }

  /** `xs.join(sep)`. */
  function Join(xs: seq<string>, sep: string): string {
    if |xs| == 0 then ""
    else if |xs| == 1 then xs[0]
    else xs[0] + sep + Join(xs[1..], sep)
  }

  /** The fields of `s` between the occurrences of `d`, left to right, none dropped. */
  function RawSplit(s: string, d: string): (r: seq<string>)
    requires |d| > 0
    decreases |s|
    ensures |r| >= 1
  {
    match IndexOf(s, d)
    case None => [s]
    case Some(i) => [s[..i]] + RawSplit(s[i + |d|..], d)
  }

  /** Ruby's `split` drops the empty fields at the end. */
  function DropTrailingEmpty(xs: seq<string>): (r: seq<string>)
    ensures |r| <= |xs| && r == xs[..|r|]
    ensures |r| > 0 ==> r[|r| - 1] != ""
    ensures forall k :: |r| <= k < |xs| ==> xs[k] == ""
  {
    if |xs| > 0 && xs[|xs| - 1] == "" then DropTrailingEmpty(xs[..|xs| - 1]) else xs
  }

  /** Ruby's `s.split(d)` for a non-empty literal delimiter. */
  function Split(s: string, d: string): seq<string>
    requires |d| > 0
  {
    DropTrailingEmpty(RawSplit(s, d))
  }

  lemma {:induction false} JoinRawSplit(s: string, d: string)
    requires |d| > 0
    ensures Join(RawSplit(s, d), d) == s
  {
    match IndexOf(s, d)
    case None =>
    case Some(i) =>
      var rest := s[i + |d|..];
      var tail := RawSplit(rest, d);
      JoinRawSplit(rest, d);
      assert RawSplit(s, d) == [s[..i]] + tail;
      assert ([s[..i]] + tail)[1..] == tail;
      assert Join([s[..i]] + tail, d) == s[..i] + d + rest;
      assert s[i..i + |d|] == d;
      assert s == s[..i] + s[i..i + |d|] + rest;
  }

  /** The first line of `s.split(" ")`: the first run of non-whitespace, if any. */
  function NonSpacePrefix(s: string): (r: string)
    ensures |r| <= |s| && r == s[..|r|]
  {
    if |s| > 0 && !IsSpace(s[0]) then [s[0]] + NonSpacePrefix(s[1..]) else ""
  }

  /** `s.split(" ").first`: nil when `s` is blank. */
  function AwkFirst(s: string): Option<string> {
    var t := SkipSpace(s);
    if t == "" then None else Some(NonSpacePrefix(t))
  }

  lemma {:induction false} NonSpacePrefixStopsAt(w: string, rest: string)
    requires forall k :: 0 <= k < |w| ==> !IsSpace(w[k])
    requires |rest| > 0 && IsSpace(rest[0])
    ensures NonSpacePrefix(w + rest) == w
  {
    if |w| > 0 {
      assert (w + rest)[1..] == w[1..] + rest;
      NonSpacePrefixStopsAt(w[1..], rest);
    }
  }

  /** A word followed by a space reads back as that word under `split(" ").first`. */
  lemma AwkFirstOfWord(w: string, rest: string)
    requires |w| > 0 && forall k :: 0 <= k < |w| ==> !IsSpace(w[k])
    ensures AwkFirst(w + " " + rest) == Some(w)
  {
    var s := w + " " + rest;
    assert SkipSpace(s) == s;
    assert s == w + (" " + rest);
    NonSpacePrefixStopsAt(w, " " + rest);
  }

  /** Position `i` starts an empty line: the regex `/^\n/` matches there. */
  predicate BlankLineAt(s: string, i: nat)
    requires i < |s|
  {
    s[i] == '\n' && (i == 0 || s[i - 1] == '\n')
  }

  function FirstBlankLine(s: string, k: nat): (r: Option<nat>)
    decreases |s| - k
    ensures r.Some? ==> k <= r.value < |s| && BlankLineAt(s, r.value)
  {
    if k >= |s| then None
    else if BlankLineAt(s, k) then Some(k)
    else FirstBlankLine(s, k + 1)
  }

  /** `s.split(/^\n/)` before the trailing empty fields are dropped. */
  function RawBlocks(s: string): (r: seq<string>)
    decreases |s|
    ensures |r| >= 1
  {
    match FirstBlankLine(s, 0)
    case None => [s]
    case Some(i) => [s[..i]] + RawBlocks(s[i + 1..])
  }

  /** `s.split(/^\n/)`: the yarn.lock text cut into its blocks at blank lines. */
  function Blocks(s: string): seq<string> {
    DropTrailingEmpty(RawBlocks(s))
  }

  lemma {:induction false} JoinRawBlocks(s: string)
    ensures Join(RawBlocks(s), "\n") == s
  {
    match FirstBlankLine(s, 0)
    case None =>
    case Some(i) =>
      JoinRawBlocks(s[i + 1..]);
      assert s == s[..i] + "\n" + s[i + 1..];
  }

  /**
   * Cutting a lockfile at blank lines and joining the blocks with "\n" gives
   * the text back, unless the text ended in blank lines (split drops those).
   */
  lemma BlocksRoundTrip(s: string)
    requires RawBlocks(s)[|RawBlocks(s)| - 1] != ""
    ensures Join(Blocks(s), "\n") == s
  {
    JoinRawBlocks(s);
  }
}
