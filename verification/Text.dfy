/**
 * The parts of Python's string and integer semantics that the helpers in
 * base.py rely on: whitespace as `str.isspace` defines it, `strip`,
 * `lstrip`/`rstrip` of one character, `replace`, `split` on one separator,
 * ASCII `lower`/`upper`, `int()` of a string and `'%s' % n`.
 */
module Text {
  import opened Wrappers

  /** Python's `str.isspace()`; the same set is what `\s` matches in a str pattern. */
  predicate IsSpace(c: char) {
    c == ' ' || ('\t' <= c <= '\r') || ('\U{1C}' <= c <= '\U{1F}') || c == '\U{85}' || c == '\U{A0}'
    || c == '\U{1680}' || ('\U{2000}' <= c <= '\U{200A}') || c == '\U{2028}' || c == '\U{2029}'
    || c == '\U{202F}' || c == '\U{205F}' || c == '\U{3000}'
  }

  /** ASCII decimal digit (`\d` restricted to ASCII). */
  predicate IsDigit(c: char) { '0' <= c <= '9' }

  /** The character class `[a-zA-Z0-9]`. */
  predicate IsAlnum(c: char) { 'a' <= c <= 'z' || 'A' <= c <= 'Z' || IsDigit(c) }

  predicate AllDigits(s: string) { forall k :: 0 <= k < |s| ==> IsDigit(s[k]) }

  predicate AllAlnum(s: string) { forall k :: 0 <= k < |s| ==> IsAlnum(s[k]) }

  predicate StartsWith(s: string, prefix: string) { |prefix| <= |s| && s[..|prefix|] == prefix }

  predicate EndsWith(s: string, suffix: string) { |suffix| <= |s| && s[|s| - |suffix|..] == suffix }

  /** The first index at or after `i` holding `c`, or `|s|` when there is none. */
  function IndexOf(s: string, c: char, i: nat): (k: nat)
    requires i <= |s|
    ensures i <= k <= |s|
    ensures k < |s| ==> s[k] == c
    ensures forall m :: i <= m < k ==> s[m] != c
    decreases |s| - i
  {
    if i == |s| || s[i] == c then i else IndexOf(s, c, i + 1)
  }

  /** The last index before `j` holding `c`, or -1 when there is none. */
  function LastIndexBefore(s: string, c: char, j: nat): (k: int)
    requires j <= |s|
    ensures -1 <= k < j
    ensures k >= 0 ==> s[k] == c
    ensures forall m :: k < m < j ==> s[m] != c
    decreases j
  {
    if j == 0 then -1 else if s[j - 1] == c then j - 1 else LastIndexBefore(s, c, j - 1)
  }

  /** The first index at or after `i` that is not whitespace, or `|s|`. */
  function SkipSpaces(s: string, i: nat): (k: nat)
    requires i <= |s|
    ensures i <= k <= |s|
    ensures forall m :: i <= m < k ==> IsSpace(s[m])
    ensures k < |s| ==> !IsSpace(s[k])
    decreases |s| - i
  {
    if i == |s| || !IsSpace(s[i]) then i else SkipSpaces(s, i + 1)
  }

  /** The end of `s[lo..j]` once its trailing whitespace is cut off. */
  function TrimSpaces(s: string, lo: nat, j: nat): (k: nat)
    requires lo <= j <= |s|
    ensures lo <= k <= j
    ensures forall m :: k <= m < j ==> IsSpace(s[m])
    ensures k > lo ==> !IsSpace(s[k - 1])
    decreases j
  {
    if j == lo || !IsSpace(s[j - 1]) then j else TrimSpaces(s, lo, j - 1)
  }

  /** Python's `s.strip()`: the leading and the trailing whitespace removed. */
  function Strip(s: string): (r: string)
    ensures r == [] || (!IsSpace(r[0]) && !IsSpace(r[|r| - 1]))
    ensures exists a, b :: 0 <= a <= b <= |s| && r == s[a..b]
              && (forall m :: 0 <= m < a ==> IsSpace(s[m]))
              && (forall m :: b <= m < |s| ==> IsSpace(s[m]))
    ensures forall c :: c in r ==> c in s
  {
    var a := SkipSpaces(s, 0);
    var b := TrimSpaces(s, a, |s|);
    assert b > a ==> !IsSpace(s[a]);
    s[a..b]
  }

  /** A string that starts with a non-space character keeps that character first when stripped. */
  lemma StripKeepsFirst(s: string)
    requires |s| > 0 && !IsSpace(s[0])
    ensures |Strip(s)| > 0 && Strip(s)[0] == s[0]
  {
    assert SkipSpaces(s, 0) == 0;
    assert TrimSpaces(s, 0, |s|) > 0;
  }

  /** A string that starts and ends with a non-space character is its own strip. */
  lemma StripUnchanged(s: string)
    requires s == [] || (!IsSpace(s[0]) && !IsSpace(s[|s| - 1]))
    ensures Strip(s) == s
  {
    if s != [] {
      assert SkipSpaces(s, 0) == 0;
      assert TrimSpaces(s, 0, |s|) == |s|;
    }
  }

  /** The end of the run of `c` characters that starts at `i`. */
  function CharRunEnd(s: string, i: nat, c: char): (j: nat)
    requires i <= |s|
    ensures i <= j <= |s|
    ensures forall m :: i <= m < j ==> s[m] == c
    ensures j < |s| ==> s[j] != c
    decreases |s| - i
  {
    if i < |s| && s[i] == c then CharRunEnd(s, i + 1, c) else i
  }

  /** The start of the run of `c` characters that ends at `j`. */
  function CharRunStart(s: string, j: nat, c: char): (i: nat)
    requires j <= |s|
    ensures i <= j
    ensures forall m :: i <= m < j ==> s[m] == c
    ensures i == 0 || s[i - 1] != c
    decreases j
  {
    if j > 0 && s[j - 1] == c then CharRunStart(s, j - 1, c) else j
  }

  /** Python's `s.lstrip(c)` for one character `c`: `s` from its first character other than `c`. */
  function LStripChar(s: string, c: char): (r: string)
    ensures r == [] || r[0] != c
  {
    s[CharRunEnd(s, 0, c)..]
  }

  /** Python's `s.rstrip(c)` for one character `c`: `s` up to its last character other than `c`. */
  function RStripChar(s: string, c: char): (r: string)
    ensures r == [] || r[|r| - 1] != c
  {
    s[..CharRunStart(s, |s|, c)]
  }

  /**
   * `t.lstrip('<').rstrip('>')` keeps the `@` at `q`: the result is the
   * slice of `t` from `lo`, and covers `q`.
   */
  lemma StripAngles(t: string, q: nat) returns (lo: nat)
    requires q < |t| && t[q] == '@'
    ensures var b := RStripChar(LStripChar(t, '<'), '>');
      lo <= q < lo + |b| <= |t| && b == t[lo..lo + |b|]
  {
    lo := CharRunEnd(t, 0, '<');
    var a := t[lo..];
    var e := CharRunStart(a, |a|, '>');
    assert lo <= q;
    assert a[q - lo] == '@';
    assert q - lo < e;
    assert a[..e] == t[lo..lo + e];
  }

  /** Python's `s.replace(pat, rep)`: every non-overlapping occurrence of `pat`, scanning left to right. */
  function ReplaceAll(s: string, pat: string, rep: string): (r: string)
    requires |pat| > 0
    ensures |pat| == |rep| ==> |r| == |s|
    ensures |pat| == 1 && |rep| == 1 ==>
              forall k :: 0 <= k < |s| ==> r[k] == (if s[k] == pat[0] then rep[0] else s[k])
    decreases |s|
  {
    if |s| < |pat| then s
    else if s[..|pat|] == pat then rep + ReplaceAll(s[|pat|..], pat, rep)
    else [s[0]] + ReplaceAll(s[1..], pat, rep)
  }

  /** `pat` occurs in `s` starting at index `k`. */
  predicate OccursAt(s: string, pat: string, k: nat) {
    k + |pat| <= |s| && s[k..k + |pat|] == pat
  }

  /** Replacing a pattern that does not occur changes nothing. */
  lemma {:induction false} ReplaceAllAbsent(s: string, pat: string, rep: string)
    requires |pat| > 0
    requires forall k: nat :: !OccursAt(s, pat, k)
    ensures ReplaceAll(s, pat, rep) == s
    decreases |s|
  {
    if |s| >= |pat| {
      assert !OccursAt(s, pat, 0);
      forall k: nat ensures !OccursAt(s[1..], pat, k) {
        assert !OccursAt(s, pat, k + 1);
        if k + |pat| <= |s[1..]| {
          assert s[1..][k..k + |pat|] == s[k + 1..k + 1 + |pat|];
        }
      }
      ReplaceAllAbsent(s[1..], pat, rep);
      assert [s[0]] + s[1..] == s;
    }
  }

  /** Python's `s.split(sep)` for a one-character separator. */
  function Split(s: string, sep: char): (parts: seq<string>)
    ensures |parts| >= 1
    ensures forall k :: 0 <= k < |parts| ==> sep !in parts[k]
    decreases |s|
  {
    var k := IndexOf(s, sep, 0);
    if k == |s| then [s] else [s[..k]] + Split(s[k + 1..], sep)
  }

  /** Python's `sep.join(parts)`. */
  function Join(parts: seq<string>, sep: char): string
    decreases |parts|
  {
    if |parts| == 0 then "" else if |parts| == 1 then parts[0] else parts[0] + [sep] + Join(parts[1..], sep)
  }

  /** Joining the pieces of a split gives the original string back. */
  lemma {:induction false} JoinSplit(s: string, sep: char)
    ensures Join(Split(s, sep), sep) == s
    decreases |s|
  {
    var k := IndexOf(s, sep, 0);
    if k < |s| {
      var rest := Split(s[k + 1..], sep);
      JoinSplit(s[k + 1..], sep);
      var parts := [s[..k]] + rest;
      assert Split(s, sep) == parts;
      assert parts[1..] == rest;
      assert Join(parts, sep) == s[..k] + [sep] + Join(rest, sep);
      assert s == s[..k] + [sep] + s[k + 1..];
    }
  }

  function DigitValue(c: char): nat
    requires IsDigit(c)
  {
    (c as int) - ('0' as int)
  }

  function DigitChar(d: nat): (c: char)
    requires d < 10
    ensures IsDigit(c) && DigitValue(c) == d
  {
    ('0' as int + d) as char
  }

  /** The value of a string of ASCII decimal digits (the empty string is 0). */
  function DigitsValue(s: string): nat
    requires AllDigits(s)
    decreases |s|
  {
    if s == [] then 0 else DigitsValue(s[..|s| - 1]) * 10 + DigitValue(s[|s| - 1])
  }

  /** `'%s' % n` for a natural number. */
  function NatToString(n: nat): (r: string)
    ensures |r| > 0 && AllDigits(r) && DigitsValue(r) == n
    decreases n
  {
    if n < 10 then [DigitChar(n)]
    else
      var r := NatToString(n / 10) + [DigitChar(n % 10)];
      assert r[..|r| - 1] == NatToString(n / 10);
      r
  }

  /** `'%s' % i` for an integer. */
  function IntToString(i: int): (r: string)
    ensures |r| > 0 && !IsSpace(r[0]) && !IsSpace(r[|r| - 1])
  {
    if i < 0 then "-" + NatToString(-i) else NatToString(i)
  }

  /** Digits with single underscores between them: the body `int()` accepts after the sign. */
  predicate IsDigitGroup(s: string) {
    && |s| > 0 && IsDigit(s[0]) && IsDigit(s[|s| - 1])
    && (forall k :: 0 <= k < |s| ==> IsDigit(s[k]) || s[k] == '_')
    && (forall k :: 0 <= k < |s| - 1 ==> s[k] == '_' ==> IsDigit(s[k + 1]))
  }

  function DropUnderscores(s: string): (r: string)
    requires forall k :: 0 <= k < |s| ==> IsDigit(s[k]) || s[k] == '_'
    ensures AllDigits(r)
    ensures AllDigits(s) ==> r == s
    decreases |s|
  {
    if s == [] then [] else (if s[0] == '_' then [] else [s[0]]) + DropUnderscores(s[1..])
  }

  /** Python's `int(s)` in base 10 on ASCII text; None where Python raises ValueError. */
  function ParseInt(s: string): Option<int> {
    var t := Strip(s);
    if |t| > 0 && (t[0] == '+' || t[0] == '-') then
      if IsDigitGroup(t[1..]) then
        var body := t[1..];
        var v: int := DigitsValue(DropUnderscores(body));
        Some(if t[0] == '-' then -v else v)
      else None
    else if IsDigitGroup(t) then
      Some(DigitsValue(DropUnderscores(t)))
    else None
  }

  /** `int()` of a non-empty run of ASCII digits is the run's value. */
  lemma ParseIntOfDigits(s: string)
    requires |s| > 0 && AllDigits(s)
    ensures ParseInt(s) == Some(DigitsValue(s))
  {
    StripUnchanged(s);
  }

  /** `int('%s' % i) == i`: printing an integer and parsing it back is the identity. */
  lemma IntToStringRoundTrip(i: int)
    ensures ParseInt(IntToString(i)) == Some(i)
  {
    var r := IntToString(i);
    StripUnchanged(r);
    if i < 0 {
      assert r[1..] == NatToString(-i);
    }
  }

  function LowerChar(c: char): char {
    if 'A' <= c <= 'Z' then (c as int + 32) as char else c
  }

  function UpperChar(c: char): char {
    if 'a' <= c <= 'z' then (c as int - 32) as char else c
  }

  /** Python's `s.lower()` on ASCII letters. */
  function Lower(s: string): (r: string)
    ensures |r| == |s|
    ensures forall k :: 0 <= k < |r| ==> !('A' <= r[k] <= 'Z')
  {
    seq(|s|, k requires 0 <= k < |s| => LowerChar(s[k]))
  }

  /** A slice avoids `c` when every position it covers does. */
  lemma NotInSlice(s: string, c: char, lo: nat, hi: nat)
    requires lo <= hi <= |s|
    requires forall m :: lo <= m < hi ==> s[m] != c
    ensures c !in s[lo..hi]
  {
    forall k | 0 <= k < hi - lo ensures s[lo..hi][k] != c {
      assert s[lo..hi][k] == s[lo + k];
    }
  }

  /** A slice of a slice is a slice. */
  lemma SliceOfSlice(s: string, i: nat, j: nat, lo: nat, hi: nat)
    requires i <= j <= |s| && lo <= hi <= j - i
    ensures s[i..j][lo..hi] == s[i + lo..i + hi]
  {
    forall k | 0 <= k < hi - lo ensures s[i..j][lo..hi][k] == s[i + lo..i + hi][k] {
      assert s[i..j][lo..hi][k] == s[i..j][lo + k];
    }
  }

  /** A prefix of `s` grows by the slice that follows it. */
  lemma PrefixGrows(s: string, i: nat, j: nat, p: string, q: string)
    requires i <= j <= |s| && s[..i] == p && s[i..j] == q
    ensures s[..j] == p + q
  {
    assert s[..j] == s[..i] + s[i..j];
  }

  /** A slice is all digits when every position it covers is a digit. */
  lemma DigitsSlice(s: string, lo: nat, hi: nat)
    requires lo <= hi <= |s|
    requires forall m :: lo <= m < hi ==> IsDigit(s[m])
    ensures AllDigits(s[lo..hi])
  {
    forall k | 0 <= k < hi - lo ensures IsDigit(s[lo..hi][k]) {
      assert s[lo..hi][k] == s[lo + k];
    }
  }

  /** A slice is all `[a-zA-Z0-9]` when every position it covers is. */
  lemma AlnumSlice(s: string, lo: nat, hi: nat)
    requires lo <= hi <= |s|
    requires forall m :: lo <= m < hi ==> IsAlnum(s[m])
    ensures AllAlnum(s[lo..hi])
  {
    forall k | 0 <= k < hi - lo ensures IsAlnum(s[lo..hi][k]) {
      assert s[lo..hi][k] == s[lo + k];
    }
  }
}
