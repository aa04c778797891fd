/**
 * The handful of Python `str` operations the feedback tool relies on:
 * `strip()`, `split(sep)[0]`, `sep.join(parts)`, `str(n)` for an `int`,
 * and, as the partner of `str(n)`, the decimal reading `int(s)` performs.
 */
module Text {
  import opened Wrappers

  /** The characters Python's `str.isspace()` accepts, which `str.strip()` removes. */
  predicate IsSpace(c: char) {
    || '\t' <= c <= '\r'
    || '\U{1c}' <= c <= '\U{1f}'
    || c == ' '
    || c == '\U{85}'
    || c == '\U{a0}'
    || c == '\U{1680}'
    || '\U{2000}' <= c <= '\U{200a}'
    || c == '\U{2028}'
    || c == '\U{2029}'
    || c == '\U{202f}'
    || c == '\U{205f}'
    || c == '\U{3000}'
  }

  /** Neither end of `s` is whitespace: what `strip()` leaves behind. */
  predicate Unpadded(s: string) {
    s == [] || (!IsSpace(s[0]) && !IsSpace(s[|s| - 1]))
  }

  /** `r` is `s` with nothing but whitespace taken off its two ends. */
  ghost predicate PaddedBy(s: string, r: string) {
    exists i, j :: 0 <= i <= j <= |s| && r == s[i..j]
      && (forall k :: 0 <= k < i ==> IsSpace(s[k]))
      && (forall k :: j <= k < |s| ==> IsSpace(s[k]))
  }

  /** Where the text of `s` starts when whitespace from position `i` on is skipped (`lstrip`). */
  function SkipSpaces(s: string, i: nat): (k: nat)
    requires i <= |s|
    ensures i <= k <= |s|
    ensures forall m :: i <= m < k ==> IsSpace(s[m])
    ensures k < |s| ==> !IsSpace(s[k])
    decreases |s| - i
  {
    if i == |s| || !IsSpace(s[i]) then i else SkipSpaces(s, i + 1)
  }

  /** Where the text of `s[lo..hi]` ends when trailing whitespace is dropped (`rstrip`). */
  function DropSpaces(s: string, lo: nat, hi: nat): (k: nat)
    requires lo <= hi <= |s|
    ensures lo <= k <= hi
    ensures forall m :: k <= m < hi ==> IsSpace(s[m])
    ensures k > lo ==> !IsSpace(s[k - 1])
    decreases hi - lo
  {
    if hi == lo || !IsSpace(s[hi - 1]) then hi else DropSpaces(s, lo, hi - 1)
  }

  /** Python's `str.strip()`: whitespace removed from both ends, nothing else. */
  function Strip(s: string): (r: string)
    ensures Unpadded(r)
    ensures PaddedBy(s, r)
  {
    var i := SkipSpaces(s, 0);
    var j := DropSpaces(s, i, |s|);
    assert forall m :: j <= m < |s| ==> IsSpace(s[m]);
    s[i..j]
  }

  /** Stripping only removes characters, so a character absent from `s` is absent from what is kept. */
  lemma PaddedByKeepsOut(s: string, r: string, c: char)
    requires PaddedBy(s, r) && c !in s
    ensures c !in r
  {
    var i, j :| 0 <= i <= j <= |s| && r == s[i..j]
      && (forall k :: 0 <= k < i ==> IsSpace(s[k]))
      && (forall k :: j <= k < |s| ==> IsSpace(s[k]));
    forall k | 0 <= k < |r| ensures r[k] != c {
      assert r[k] == s[i + k];
    }
  }

  /** Stripping a string that has no whitespace at either end changes nothing. */
  lemma StripUnpadded(s: string)
    requires Unpadded(s)
    ensures Strip(s) == s
  {
    assert SkipSpaces(s, 0) == 0;
    assert DropSpaces(s, 0, |s|) == |s|;
    assert s[0..|s|] == s;
  }

  /** `strip()` is idempotent. */
  lemma StripIdempotent(s: string)
    ensures Strip(Strip(s)) == Strip(s)
  {
    StripUnpadded(Strip(s));
  }

  /** Python's `s.split(sep)[0]` for a one-character separator: the text before the first `sep`. */
  function BeforeFirst(s: string, sep: char): (r: string)
    ensures sep !in r
    ensures |r| <= |s| && r == s[..|r|]
    ensures |r| < |s| ==> s[|r|] == sep
  {
    if s == [] || s[0] == sep then [] else [s[0]] + BeforeFirst(s[1..], sep)
  }

  /** A string without the separator is its own first piece. */
  lemma {:induction false} BeforeFirstNoSeparator(s: string, sep: char)
    requires sep !in s
    ensures BeforeFirst(s, sep) == s
  {
    if s != [] {
      BeforeFirstNoSeparator(s[1..], sep);
    }
  }

  /** The first piece of `x + [sep] + y` is `x` whenever `x` has no `sep`. */
  lemma BeforeFirstOfConcat(x: string, sep: char, y: string)
    requires sep !in x
    ensures BeforeFirst(x + [sep] + y, sep) == x
  {
    var s := x + [sep] + y;
    var r := BeforeFirst(s, sep);
    assert s[|x|] == sep;
    assert s[..|x|] == x;
    assert sep !in r;
  }

  /** Python's `sep.join(parts)`. */
  function Join(sep: string, parts: seq<string>): string {
    if parts == [] then ""
    else if |parts| == 1 then parts[0]
    else parts[0] + sep + Join(sep, parts[1..])
  }

  /** A join starts with its first part, followed by the separator when more parts follow. */
  lemma JoinLeads(sep: string, parts: seq<string>)
    requires parts != []
    ensures var j, h := Join(sep, parts), parts[0];
      && |h| <= |j| && j[..|h|] == h
      && (|parts| > 1 ==> |h| + |sep| <= |j| && j[|h|..|h| + |sep|] == sep)
  {
    if |parts| > 1 {
      var rest := Join(sep, parts[1..]);
      assert Join(sep, parts) == parts[0] + sep + rest;
      assert (parts[0] + sep + rest)[..|parts[0]|] == parts[0];
      assert (parts[0] + sep + rest)[|parts[0]|..|parts[0]| + |sep|] == sep;
    }
  }

  /** Joining one more part adds the separator and the part at the end. */
  lemma {:induction false} JoinSnoc(sep: string, parts: seq<string>, last: string)
    ensures Join(sep, parts + [last]) == if parts == [] then last else Join(sep, parts) + sep + last
  {
    if |parts| > 1 {
      assert (parts + [last])[1..] == parts[1..] + [last];
      JoinSnoc(sep, parts[1..], last);
    } else if |parts| == 1 {
      assert (parts + [last])[1..] == [last];
    }
  }

  /**
   * Appending a non-empty part to a text that is the join of `parts` (and is
   * empty only when there are none): the separator goes in only when the
   * text so far is not empty.
   */
  lemma AppendSection(sep: string, text: string, parts: seq<string>, part: string)
    requires text == Join(sep, parts) && (text == "" <==> parts == [])
    requires part != ""
    ensures var t := if text != "" then text + sep + part else part;
      t == Join(sep, parts + [part]) && t != ""
  {
    JoinSnoc(sep, parts, part);
  }

  /** A join of non-empty parts is empty exactly when there are no parts. */
  lemma JoinEmpty(sep: string, parts: seq<string>)
    requires forall k :: 0 <= k < |parts| ==> parts[k] != ""
    ensures Join(sep, parts) == "" <==> parts == []
  {
    if |parts| > 1 {
      assert |Join(sep, parts)| >= |parts[0]|;
    }
  }

  /**
   * `line` occurs in `f` at index `i` as whole lines: it starts at the
   * beginning of `f` or right after a line break, and ends at the end of `f`
   * or right before one.
   */
  predicate LineAt(line: string, f: string, i: nat) {
    && i + |line| <= |f| && f[i..i + |line|] == line
    && (i == 0 || f[i - 1] == '\n')
    && (i + |line| == |f| || f[i + |line|] == '\n')
  }

  ghost predicate IsLineOf(line: string, f: string) {
    exists i: nat :: LineAt(line, f, i)
  }

  lemma LineOfItself(line: string)
    ensures IsLineOf(line, line)
  {
    assert LineAt(line, line, 0);
  }

  /** Appending text that starts with a line break keeps the lines of `f`. */
  lemma LineOfExtendedRight(line: string, f: string, tail: string)
    requires IsLineOf(line, f) && tail != [] && tail[0] == '\n'
    ensures IsLineOf(line, f + tail)
  {
    var i: nat :| LineAt(line, f, i);
    assert (f + tail)[i..i + |line|] == f[i..i + |line|];
    assert LineAt(line, f + tail, i);
  }

  /** Prepending text that ends with a line break keeps the lines of `f`. */
  lemma LineOfExtendedLeft(line: string, head: string, f: string)
    requires IsLineOf(line, f) && head != [] && head[|head| - 1] == '\n'
    ensures IsLineOf(line, head + f)
  {
    var i: nat :| LineAt(line, f, i);
    assert (head + f)[|head| + i..|head| + i + |line|] == f[i..i + |line|];
    assert LineAt(line, head + f, |head| + i);
  }

  /** A line of any part stays a line of the join when the separator starts and ends with a line break. */
  lemma {:induction false} LineOfJoin(sep: string, parts: seq<string>, k: int, line: string)
    requires sep != [] && sep[0] == '\n' && sep[|sep| - 1] == '\n'
    requires 0 <= k < |parts| && IsLineOf(line, parts[k])
    ensures IsLineOf(line, Join(sep, parts))
    decreases |parts|
  {
    if |parts| > 1 {
      var rest := Join(sep, parts[1..]);
      assert Join(sep, parts) == parts[0] + sep + rest;
      if k == 0 {
        LineOfExtendedRight(line, parts[0], sep + rest);
        assert parts[0] + (sep + rest) == parts[0] + sep + rest;
      } else {
        assert parts[1..][k - 1] == parts[k];
        LineOfJoin(sep, parts[1..], k - 1, line);
        LineOfExtendedLeft(line, parts[0] + sep, rest);
      }
    }
  }

  predicate IsDigit(c: char) {
    '0' <= c <= '9'
  }

  predicate AllDigits(s: string) {
    forall k :: 0 <= k < |s| ==> IsDigit(s[k])
  }

  function DigitChar(d: nat): (c: char)
    requires d < 10
    ensures IsDigit(c) && c as int - '0' as int == d
  {
    "0123456789"[d]
  }

  /** The decimal digits of `n`, most significant first, with no leading zero. */
  function NatString(n: nat): (s: string)
    ensures s != [] && AllDigits(s)
    ensures |s| > 1 ==> s[0] != '0'
  {
    if n < 10 then [DigitChar(n)] else NatString(n / 10) + [DigitChar(n % 10)]
  }

  /** Python's `str(i)` for an `int`. */
  function IntString(i: int): (s: string)
    ensures s != [] && (s[0] == '-' || IsDigit(s[0])) && AllDigits(s[1..])
  {
    if i < 0 then "-" + NatString(-i) else NatString(i)
  }

  /** A character that is neither a digit nor a minus sign never occurs in `str(i)`. */
  lemma IntStringAvoids(i: int, c: char)
    requires c != '-' && !IsDigit(c)
    ensures c !in IntString(i)
  {
    var s := IntString(i);
    forall k | 0 <= k < |s|
      ensures s[k] != c
    {
      if k > 0 {
        assert s[k] == s[1..][k - 1];
      }
    }
  }

  /** The value of a string of decimal digits. */
  function DigitsValue(s: string): nat
    requires AllDigits(s)
  {
    if s == [] then 0 else 10 * DigitsValue(s[..|s| - 1]) + (s[|s| - 1] as int - '0' as int)
  }

  /** The decimal reading of Python's `int(s)`: an optional `-` and one or more digits. */
  function ParseDecimal(s: string): Option<int> {
    if |s| > 1 && s[0] == '-' && AllDigits(s[1..]) then Some(0 - DigitsValue(s[1..]) as int)
    else if s != [] && AllDigits(s) then Some(DigitsValue(s))
    else None
  }

  lemma {:induction false} DigitsValueOfNatString(n: nat)
    ensures DigitsValue(NatString(n)) == n
  {
    if n >= 10 {
      var s := NatString(n);
      assert s[..|s| - 1] == NatString(n / 10);
      DigitsValueOfNatString(n / 10);
    }
  }

  /** The digits of a natural number read back as that number. */
  lemma ParseNatString(n: nat)
    ensures ParseDecimal(NatString(n)) == Some(n)
  {
    var s := NatString(n);
    assert IsDigit(s[0]);
    DigitsValueOfNatString(n);
  }

  /** A minus sign before the digits of `n` reads back as `-n`. */
  lemma ParseNegatedNatString(n: nat)
    ensures ParseDecimal("-" + NatString(n)) == Some(-(n as int))
  {
    var digits := NatString(n);
    var s := "-" + digits;
    assert s[1..] == digits;
    DigitsValueOfNatString(n);
  }

  /** `int(str(i)) == i`: the decimal text of an integer reads back as that integer. */
  lemma {:induction false} IntStringRoundTrip(i: int)
    ensures ParseDecimal(IntString(i)) == Some(i)
  {
    if i < 0 {
      ParseNegatedNatString(-i);
      assert IntString(i) == "-" + NatString(-i);
    } else {
      ParseNatString(i);
      assert IntString(i) == NatString(i);
    }
  }

  /** Different integers have different decimal texts. */
  lemma IntStringInjective(i: int, j: int)
    requires IntString(i) == IntString(j)
    ensures i == j
  {
    IntStringRoundTrip(i);
    IntStringRoundTrip(j);
  }
}
