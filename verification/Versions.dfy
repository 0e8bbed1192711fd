/**
 * Dotted version strings (`a.b.c.d`) and their three-way comparison.
 *
 * A version is read by splitting it at every '.' and parsing each piece
 * with Python's `int()`; a piece `int()` refuses makes the comparison
 * fail. Two versions are compared component by component, a missing
 * component counting as 0, so "1.2" and "1.2.0" are equal.
 */
module Versions {
  import opened Wrappers
  import opened Text

  /** `int()` refused a component: Python raises ValueError. */
  datatype VersionError = BadComponent(component: string)

  /** Piece `k` is the first that `int()` refuses. */
  predicate FirstBadAt(parts: seq<string>, k: int) {
    && 0 <= k < |parts| && ParseInt(parts[k]).None?
    && forall j :: 0 <= j < k ==> ParseInt(parts[j]).Some?
  }

  /** The first refused piece of a tail, behind a piece `int()` accepts, is the first refused piece. */
  lemma FirstBadShift(parts: seq<string>, k: int)
    requires |parts| > 0 && ParseInt(parts[0]).Some? && FirstBadAt(parts[1..], k)
    ensures FirstBadAt(parts, k + 1) && parts[k + 1] == parts[1..][k]
  {
    forall j | 0 < j < k + 1 ensures ParseInt(parts[j]).Some? {
      assert parts[j] == parts[1..][j - 1];
    }
  }

  /** The integer components of the pieces, or the first piece that is not an integer. */
  function ParseComponents(parts: seq<string>): (r: Result<seq<int>, VersionError>)
    ensures r.Ok? ==>
              && |r.value| == |parts|
              && forall k :: 0 <= k < |parts| ==> ParseInt(parts[k]) == Some(r.value[k])
    ensures r.Err? ==> exists k :: FirstBadAt(parts, k) && r.error == BadComponent(parts[k])
    decreases |parts|
  {
    if parts == [] then Ok([])
    else match ParseInt(parts[0])
      case None =>
        assert FirstBadAt(parts, 0);
        Err(BadComponent(parts[0]))
      case Some(v) =>
        match ParseComponents(parts[1..])
        case Err(e) =>
          ghost var k :| FirstBadAt(parts[1..], k) && e == BadComponent(parts[1..][k]);
          FirstBadShift(parts, k);
          Err(e)
        case Ok(vs) => Ok([v] + vs)
  }

  /** The components of a version string: `[int(x) for x in ver.split('.')]`. */
  function ParseVersion(ver: string): (r: Result<seq<int>, VersionError>)
    ensures r.Ok? ==> |r.value| == |Split(ver, '.')| >= 1
  {
    ParseComponents(Split(ver, '.'))
  }

  /** Component `i` of a version, reading a missing component as 0. */
  function At(v: seq<int>, i: nat): int {
    if i < |v| then v[i] else 0
  }

  function Max(a: nat, b: nat): nat { if a < b then b else a }

  /** Three-way comparison of two versions from component `i` on. */
  function CompareFrom(a: seq<int>, b: seq<int>, i: nat): (c: int)
    ensures c == -1 || c == 0 || c == 1
    decreases Max(|a|, |b|) - i
  {
    if i >= Max(|a|, |b|) then 0
    else if At(a, i) > At(b, i) then 1
    else if At(a, i) < At(b, i) then -1
    else CompareFrom(a, b, i + 1)
  }

  /** The comparison the version helper promises: 1, 0 or -1 for greater, equal or smaller. */
  function Compare(a: seq<int>, b: seq<int>): int {
    CompareFrom(a, b, 0)
  }

  /** The first component at or after `i` where the two versions differ, if any. */
  predicate FirstDifferenceFrom(a: seq<int>, b: seq<int>, i: nat, d: nat) {
    && i <= d && At(a, d) != At(b, d)
    && forall j :: i <= j < d ==> At(a, j) == At(b, j)
  }

  /**
   * What the comparison means: 0 exactly when every component agrees,
   * and otherwise the sign of the first component that differs.
   */
  lemma {:induction false} CompareFromMeaning(a: seq<int>, b: seq<int>, i: nat)
    ensures CompareFrom(a, b, i) == 0 <==> forall j :: i <= j ==> At(a, j) == At(b, j)
    ensures CompareFrom(a, b, i) == 1 <==> exists d :: FirstDifferenceFrom(a, b, i, d) && At(a, d) > At(b, d)
    ensures CompareFrom(a, b, i) == -1 <==> exists d :: FirstDifferenceFrom(a, b, i, d) && At(a, d) < At(b, d)
    decreases Max(|a|, |b|) - i
  {
    if i >= Max(|a|, |b|) {
      assert forall j :: i <= j ==> At(a, j) == 0 == At(b, j);
    } else if At(a, i) != At(b, i) {
      assert FirstDifferenceFrom(a, b, i, i);
      assert !(forall j :: i <= j ==> At(a, j) == At(b, j));
      forall d | FirstDifferenceFrom(a, b, i, d) ensures d == i { }
    } else {
      CompareFromMeaning(a, b, i + 1);
      forall d | FirstDifferenceFrom(a, b, i, d) ensures FirstDifferenceFrom(a, b, i + 1, d) { }
      forall d | FirstDifferenceFrom(a, b, i + 1, d) ensures FirstDifferenceFrom(a, b, i, d) { }
      assert (forall j :: i <= j ==> At(a, j) == At(b, j)) <==> (forall j :: i + 1 <= j ==> At(a, j) == At(b, j)) by {
        if forall j :: i + 1 <= j ==> At(a, j) == At(b, j) {
          forall j | i <= j ensures At(a, j) == At(b, j) { }
        }
      }
    }
  }

  /** Two versions compare equal exactly when they agree on every component, missing ones read as 0. */
  lemma CompareZeroMeansEqual(a: seq<int>, b: seq<int>)
    ensures Compare(a, b) == 0 <==> forall j: nat :: At(a, j) == At(b, j)
  {
    CompareFromMeaning(a, b, 0);
  }

  /** Every version compares equal to itself. */
  lemma CompareReflexive(a: seq<int>)
    ensures Compare(a, a) == 0
  {
    CompareFromMeaning(a, a, 0);
  }

  /** Swapping the arguments flips the sign. */
  lemma {:induction false} CompareAntisymmetric(a: seq<int>, b: seq<int>, i: nat)
    ensures CompareFrom(a, b, i) == -CompareFrom(b, a, i)
    decreases Max(|a|, |b|) - i
  {
    if i < Max(|a|, |b|) && At(a, i) == At(b, i) {
      CompareAntisymmetric(a, b, i + 1);
    }
  }

  /** Trailing zero components change nothing: "1.2" compares equal to "1.2.0". */
  lemma ZeroPaddingIrrelevant(a: seq<int>, b: seq<int>, n: nat)
    ensures Compare(a + seq(n, _ => 0), b) == Compare(a, b)
  {
    var a' := a + seq(n, _ => 0);
    assert forall j: nat :: At(a', j) == At(a, j);
    CompareFromMeaning(a, b, 0);
    CompareFromMeaning(a', b, 0);
    forall d ensures FirstDifferenceFrom(a', b, 0, d) <==> FirstDifferenceFrom(a, b, 0, d) { }
  }

  /** A one-digit component parses to its digit. */
  lemma ParseDigit(c: char)
    requires IsDigit(c)
    ensures ParseInt([c]) == Some(DigitValue(c))
  {
    ParseIntOfDigits([c]);
    assert [c][..0] == [];
  }

  lemma SplitOneTwo()
    ensures Split("1.2", '.') == ["1", "2"]
  {
    assert IndexOf("2", '.', 0) == 1;
    assert IndexOf("1.2", '.', 0) == 1;
    assert "1.2"[..1] == "1" && "1.2"[2..] == "2";
  }

  lemma SplitOneTwoZero()
    ensures Split("1.2.0", '.') == ["1", "2", "0"]
  {
    assert IndexOf("0", '.', 0) == 1;
    assert IndexOf("2.0", '.', 0) == 1;
    assert "2.0"[..1] == "2" && "2.0"[2..] == "0";
    assert Split("2.0", '.') == ["2", "0"];
    assert IndexOf("1.2.0", '.', 0) == 1;
    assert "1.2.0"[..1] == "1" && "1.2.0"[2..] == "2.0";
  }

  /** A piece `int()` accepts, in front of pieces that parse, adds its value in front. */
  lemma ParseComponentsCons(p: string, ps: seq<string>, v: int, vs: seq<int>)
    requires ParseInt(p) == Some(v) && ParseComponents(ps) == Ok(vs)
    ensures ParseComponents([p] + ps) == Ok([v] + vs)
  {
    assert ([p] + ps)[1..] == ps;
  }

  /** Two pieces `int()` accepts. */
  lemma ParseTwoPieces(p: string, q: string, v: int, w: int)
    requires ParseInt(p) == Some(v) && ParseInt(q) == Some(w)
    ensures ParseComponents([p, q]) == Ok([v, w])
  {
    ParseComponentsCons(q, [], w, []);
    assert [q] + [] == [q] && [w] + [] == [w];
    ParseComponentsCons(p, [q], v, [w]);
    assert [p] + [q] == [p, q] && [v] + [w] == [v, w];
  }

  /** Three pieces `int()` accepts. */
  lemma ParseThreePieces(p: string, q: string, s: string, v: int, w: int, x: int)
    requires ParseInt(p) == Some(v) && ParseInt(q) == Some(w) && ParseInt(s) == Some(x)
    ensures ParseComponents([p, q, s]) == Ok([v, w, x])
  {
    ParseTwoPieces(q, s, w, x);
    ParseComponentsCons(p, [q, s], v, [w, x]);
    assert [p] + [q, s] == [p, q, s] && [v] + [w, x] == [v, w, x];
  }

  lemma ParseDigits()
    ensures ParseInt("0") == Some(0) && ParseInt("1") == Some(1) && ParseInt("2") == Some(2)
  {
    ParseDigit('0');
    ParseDigit('1');
    ParseDigit('2');
  }

  /** "1.2" and "1.2.0" parse to [1, 2] and [1, 2, 0], and these compare equal. */
  lemma OneTwoEqualsOneTwoZero()
    ensures ParseVersion("1.2") == Ok([1, 2])
    ensures ParseVersion("1.2.0") == Ok([1, 2, 0])
    ensures Compare([1, 2], [1, 2, 0]) == 0
  {
    SplitOneTwo();
    SplitOneTwoZero();
    ParseDigits();
    ParseTwoPieces("1", "2", 1, 2);
    ParseThreePieces("1", "2", "0", 1, 2, 0);
    CompareZeroMeansEqual([1, 2], [1, 2, 0]);
  }

  /** `vers_diff`: `n` zeros, appended one at a time. */
  method Zeros(n: nat) returns (z: seq<int>)
    ensures |z| == n && forall k :: 0 <= k < n ==> z[k] == 0
  {
    z := [];
    var i := 0;
    while i < n
      invariant i <= n
      invariant |z| == i && forall k :: 0 <= k < i ==> z[k] == 0
    {
      z := z + [0];
      i := i + 1;
    }
  }

  /** A version extended with zeros reads, at every index, as the version padded with zeros. */
  lemma PaddedAt(v: seq<int>, z: seq<int>)
    requires forall k :: 0 <= k < |z| ==> z[k] == 0
    ensures forall j :: 0 <= j < |v| + |z| ==> (v + z)[j] == At(v, j)
  {
  }

  /**
   * `cmp_ver`: parse both versions, pad the shorter list with zeros and
   * scan the components from the left. Fails where `int()` fails, on the
   * first version before the second.
   */
  method CmpVer(verA: string, verB: string) returns (r: Result<int, VersionError>)
    ensures ParseVersion(verA).Err? ==> r == Err(ParseVersion(verA).error)
    ensures ParseVersion(verA).Ok? && ParseVersion(verB).Err? ==> r == Err(ParseVersion(verB).error)
    ensures ParseVersion(verA).Ok? && ParseVersion(verB).Ok? ==>
              r == Ok(Compare(ParseVersion(verA).value, ParseVersion(verB).value))
  {
    var pa := ParseVersion(verA);
    if pa.Err? {
      return Err(pa.error);
    }
    var pb := ParseVersion(verB);
    if pb.Err? {
      return Err(pb.error);
    }
    ghost var a0, b0 := pa.value, pb.value;
    var versA, versB := pa.value, pb.value;

    var lenA, lenB := |versA|, |versB|;
    var lenMax := Max(lenA, lenB);
    var lenDiff := if lenA < lenB then lenB - lenA else lenA - lenB;
    var versDiff := Zeros(lenDiff);
    if lenA < lenB {
      PaddedAt(versA, versDiff);
      versA := versA + versDiff;
    } else if lenB < lenA {
      PaddedAt(versB, versDiff);
      versB := versB + versDiff;
    }
    assert |versA| == lenMax && |versB| == lenMax;

    var index := 0;
    while index < lenMax
      invariant index <= lenMax
      invariant forall j :: 0 <= j < lenMax ==> versA[j] == At(a0, j) && versB[j] == At(b0, j)
      invariant CompareFrom(a0, b0, index) == Compare(a0, b0)
    {
      if versA[index] > versB[index] {
        return Ok(1);
      } else if versA[index] < versB[index] {
        return Ok(-1);
      }
      index := index + 1;
    }
    return Ok(0);
  }
}
