/**
 * The regular expressions that the commit-log reader in base.py applies to
 * one line of `git log --shortstat` output, each written out as the match
 * Python's `re` module finds: `re.match` is anchored at the start of the
 * line but not at its end, `re.search` takes the leftmost start, and `*`,
 * `+` and `?` are greedy and backtrack. A line is one piece of
 * `out.split('\n')`, so it holds no newline; the matchers that rely on that
 * (`.` does not match a newline) say so in their `requires`.
 */
module LogPatterns {
  import opened Wrappers
  import opened Text

  // ---------------------------------------------------------------- anchored prefixes

  /** `re.match('commit (.*)', line)`: group 1, the commit hash. */
  function CommitHash(line: string): (r: Option<string>)
    requires '\n' !in line
    ensures r.Some? <==> StartsWith(line, "commit ")
    ensures r.Some? ==> line == "commit " + r.value
  {
    if StartsWith(line, "commit ") then Some(line[7..]) else None
  }

  /** `re.match('Date:(.*)', line)`: group 1, before the caller strips it. */
  function DateText(line: string): (r: Option<string>)
    requires '\n' !in line
    ensures r.Some? <==> StartsWith(line, "Date:")
    ensures r.Some? ==> line == "Date:" + r.value
  {
    if StartsWith(line, "Date:") then Some(line[5..]) else None
  }

  /** `re.match('Author:', line)`. */
  predicate IsAuthorLine(line: string) {
    StartsWith(line, "Author:")
  }

  /** A pattern made of literal characters and `.` wildcards matches the start of `s`. */
  predicate MatchesPrefix(s: string, pat: string) {
    |pat| <= |s| && forall k :: 0 <= k < |pat| ==> pat[k] == '.' || s[k] == pat[k]
  }

  /** The literal part of the svn footer pattern; its two `.` are regex wildcards. */
  const SvnPrefix: string := "git-svn-id: " + "svn://svn.chromium.org/" + "chrome/trunk/src@"

  /**
   * `re.match('git-svn-id: svn://svn.chromium.org/chrome/trunk/src@(.*) .*', s)`:
   * group 1, which the greedy `(.*)` stretches to the last space of `s`.
   */
  function SvnRevisionText(s: string): (r: Option<string>)
    requires '\n' !in s
    ensures r.Some? <==> MatchesPrefix(s, SvnPrefix) && ' ' in s[|SvnPrefix|..]
    ensures r.Some? ==> exists rest :: s[|SvnPrefix|..] == r.value + " " + rest && ' ' !in rest
  {
    if !MatchesPrefix(s, SvnPrefix) then None
    else
      var k := LastIndexBefore(s, ' ', |s|);
      if k < |SvnPrefix| then
        NotInSlice(s, ' ', |SvnPrefix|, |s|);
        None
      else
        assert s[|SvnPrefix|..] == s[|SvnPrefix|..k] + " " + s[k + 1..];
        NotInSlice(s, ' ', k + 1, |s|);
        Some(s[|SvnPrefix|..k])
  }

  /** A line the svn footer pattern accepts starts with `g`. */
  lemma SvnStartsWithG(s: string)
    requires MatchesPrefix(s, SvnPrefix)
    ensures |s| > 0 && s[0] == 'g'
  {
  }

  /** The literal text before the revision number of a Cr-Commit-Position footer on main. */
  const CrMain: string := "Cr-Commit-Position: " + "refs/heads/" + "main@{#"

  /** The same on master. */
  const CrMaster: string := "Cr-Commit-Position: " + "refs/heads/" + "master@{#"

  /** Which branch names a Cr-Commit-Position footer may carry. */
  datatype BranchFooter =
    | MainOnly      // `refs/heads/main@{#(.*)}`, the pattern of Util.parse_git_line
    | MainOrMaster  // `refs/heads/(main|master)@{#(.*)}`, the pattern of ChromiumRepo._parse_line

  /** The footer texts the pattern accepts before the revision group. */
  function FooterHeads(f: BranchFooter): set<string> {
    if f == MainOnly then {CrMain} else {CrMain, CrMaster}
  }

  /** The accepted footer head that `s` starts with, if any; at most one can match. */
  function CrHeadOf(s: string, f: BranchFooter): (r: Option<string>)
    ensures r.Some? ==> r.value in FooterHeads(f) && StartsWith(s, r.value)
    ensures r.None? ==> forall h :: h in FooterHeads(f) ==> !StartsWith(s, h)
    ensures r.Some? ==> forall h :: h in FooterHeads(f) && StartsWith(s, h) ==> h == r.value
  {
    assert CrMain[33] == 'i' && CrMaster[33] == 's';
    if StartsWith(s, CrMain) then Some(CrMain)
    else if f == MainOrMaster && StartsWith(s, CrMaster) then Some(CrMaster)
    else None
  }

  /** A line either Cr-Commit-Position pattern accepts starts with `C`. */
  lemma CrStartsWithC(s: string, f: BranchFooter)
    ensures CrHeadOf(s, f).Some? ==> |s| > 0 && s[0] == 'C'
  {
    if CrHeadOf(s, f).Some? {
      var h := CrHeadOf(s, f).value;
      assert h[0] == 'C';
      assert s[..|h|][0] == s[0];
    }
  }

  /**
   * `re.match('Cr-Commit-Position: refs/heads/(main|master)@{#(.*)}', s)`: the
   * revision group, which the greedy `(.*)` stretches to the last `}` of `s`.
   */
  function CrRevisionText(s: string, f: BranchFooter): (r: Option<string>)
    requires '\n' !in s
    ensures r.Some? <==> CrHeadOf(s, f).Some? && '}' in s[|CrHeadOf(s, f).value|..]
    ensures r.Some? ==> exists rest :: s == CrHeadOf(s, f).value + r.value + "}" + rest && '}' !in rest
  {
    match CrHeadOf(s, f)
    case None => None
    case Some(h) =>
      var k := LastIndexBefore(s, '}', |s|);
      if k < |h| then
        NotInSlice(s, '}', |h|, |s|);
        None
      else
        PrefixGrows(s, |h|, k, h, s[|h|..k]);
        assert s == s[..k] + "}" + s[k + 1..];
        NotInSlice(s, '}', k + 1, |s|);
        assert s[|h|..][k - |h|] == s[k];
        Some(s[|h|..k])
  }

  /** The two flavours read the same revision from every line that is not a master footer. */
  lemma CrFlavoursAgree(s: string)
    requires '\n' !in s && !StartsWith(s, CrMaster)
    ensures CrRevisionText(s, MainOnly) == CrRevisionText(s, MainOrMaster)
  {
    assert CrHeadOf(s, MainOnly) == CrHeadOf(s, MainOrMaster);
  }

  // ---------------------------------------------------------------- the shortstat line

  /** The end of the run of ASCII digits that starts at `i`. */
  function DigitRunEnd(s: string, i: nat): (j: nat)
    requires i <= |s|
    ensures i <= j <= |s|
    ensures forall m :: i <= m < j ==> IsDigit(s[m])
    ensures j < |s| ==> !IsDigit(s[j])
    decreases |s| - i
  {
    if i < |s| && IsDigit(s[i]) then DigitRunEnd(s, i + 1) else i
  }

  /** `re.match(r'(\d+) files? changed', s)`. */
  predicate IsShortstat(s: string) {
    var j := DigitRunEnd(s, 0);
    j > 0 && (StartsWith(s[j..], " file changed") || StartsWith(s[j..], " files changed"))
  }

  /** IsShortstat is the regex: a non-empty digit string, then " file changed" or " files changed". */
  lemma ShortstatSpec(s: string)
    ensures IsShortstat(s) <==>
      exists n :: 0 < n <= |s| && AllDigits(s[..n])
        && (StartsWith(s[n..], " file changed") || StartsWith(s[n..], " files changed"))
  {
    var j := DigitRunEnd(s, 0);
    if IsShortstat(s) {
      assert AllDigits(s[..j]);
    }
    forall n | 0 < n <= |s| && AllDigits(s[..n])
        && (StartsWith(s[n..], " file changed") || StartsWith(s[n..], " files changed"))
      ensures IsShortstat(s)
    {
      assert s[n] == ' ';
      forall m | 0 <= m < n ensures IsDigit(s[m]) { assert s[..n][m] == s[m]; }
      assert j == n;
    }
  }

  /**
   * The count pattern `(\d+) <word>(s)*\(<sign>\)` matches at `i`: the digit run
   * starting there, a space, `word`, any number of `s`, then `(sign)`.
   */
  predicate CountAt(s: string, i: nat, word: string, sign: char)
    requires i <= |s|
  {
    var j := DigitRunEnd(s, i);
    && j > i && StartsWith(s[j..], " " + word)
    && var m := CharRunEnd(s, j + 1 + |word|, 's');
    StartsWith(s[m..], ['(', sign, ')'])
  }

  /** The leftmost index at or after `i` where the count pattern matches. */
  function FirstCountAt(s: string, i: nat, word: string, sign: char): (r: Option<nat>)
    requires i <= |s|
    ensures r.Some? ==> i <= r.value < |s| && CountAt(s, r.value, word, sign)
    ensures forall k :: i <= k <= |s| && (r.None? || k < r.value) ==> !CountAt(s, k, word, sign)
    decreases |s| - i
  {
    if i == |s| then None
    else if CountAt(s, i, word, sign) then Some(i)
    else FirstCountAt(s, i + 1, word, sign)
  }

  /**
   * `re.search(r'(\d+) insertion(s)*\(\+\)', s)` with word "insertion" and sign '+',
   * the deletion pattern with "deletion" and '-': `int()` of group 1 of the leftmost match.
   */
  function SearchCount(s: string, word: string, sign: char): (r: Option<nat>)
    ensures r.None? <==> forall k :: 0 <= k <= |s| ==> !CountAt(s, k, word, sign)
    ensures r.Some? ==>
              exists i :: 0 <= i < |s| && CountAt(s, i, word, sign)
                && (forall k :: 0 <= k < i ==> !CountAt(s, k, word, sign))
                && r.value == DigitsValue(s[i..DigitRunEnd(s, i)])
  {
    match FirstCountAt(s, 0, word, sign)
    case None => None
    case Some(i) =>
      var j := DigitRunEnd(s, i);
      DigitsSlice(s, i, j);
      Some(DigitsValue(s[i..j]))
  }

  // ---------------------------------------------------------------- the author line

  /** Positions where `<(.*@.*)@.*>` matches: `<` at i, `@` at p1 and p2, `>` at q. */
  predicate AngleWitness(line: string, i: int, p1: int, p2: int, q: int) {
    && 0 <= i < p1 < p2 < q < |line|
    && line[i] == '<' && line[p1] == '@' && line[p2] == '@' && line[q] == '>'
  }

  /** `re.search('<(.*@.*)@.*>', line)`: group 1. */
  function AngleCapture(line: string): Option<string>
    requires '\n' !in line
  {
    var i := IndexOf(line, '<', 0);
    var q := LastIndexBefore(line, '>', |line|);
    if i == |line| || q <= i then None
    else
      var p2 := LastIndexBefore(line, '@', q);
      if p2 <= i then None
      else
        var p1 := LastIndexBefore(line, '@', p2);
        if p1 <= i then None else Some(line[i + 1..p2])
  }

  /**
   * AngleCapture is the leftmost, greedy match: it fails exactly when no
   * `<`, `@`, `@`, `>` occur in that order, and otherwise captures from the
   * first `<` up to the last `@` that comes before the last `>`.
   */
  lemma AngleCaptureSpec(line: string)
    requires '\n' !in line
    ensures AngleCapture(line).None? <==> forall i, p1, p2, q :: !AngleWitness(line, i, p1, p2, q)
    ensures AngleCapture(line).Some? ==>
      exists i, p1, p2, q :: AngleWitness(line, i, p1, p2, q) && AngleCapture(line).value == line[i + 1..p2]
        && (forall m :: 0 <= m < i ==> line[m] != '<')
        && (forall m :: q < m < |line| ==> line[m] != '>')
        && (forall m :: p2 < m < q ==> line[m] != '@')
  {
    var i := IndexOf(line, '<', 0);
    var q := LastIndexBefore(line, '>', |line|);
    if i < |line| && q > i {
      var p2 := LastIndexBefore(line, '@', q);
      if p2 > i {
        var p1 := LastIndexBefore(line, '@', p2);
        if p1 > i {
          assert AngleWitness(line, i, p1, p2, q);
        }
      }
    }
    forall i', p1', p2', q' | AngleWitness(line, i', p1', p2', q') ensures AngleCapture(line).Some? {
      assert i <= i';
      assert q' <= q;
      var p2 := LastIndexBefore(line, '@', q);
      assert p2' <= p2;
      var p1 := LastIndexBefore(line, '@', p2);
      assert p2' < p2 ==> p2' <= p1;
      assert p2' == p2 ==> p1' <= p1;
    }
  }

  /** An `@` with a non-space character on each side: where `\S+@\S+` can match. */
  predicate InnerAt(line: string, p: int) {
    0 < p < |line| - 1 && line[p] == '@' && !IsSpace(line[p - 1]) && !IsSpace(line[p + 1])
  }

  /** The first position at or after `p` where InnerAt holds, or `|line|`. */
  function FirstInnerAt(line: string, p: nat): (k: nat)
    requires p <= |line|
    ensures p <= k <= |line|
    ensures k < |line| ==> InnerAt(line, k)
    ensures forall m :: p <= m < k ==> !InnerAt(line, m)
    decreases |line| - p
  {
    if p == |line| || InnerAt(line, p) then p else FirstInnerAt(line, p + 1)
  }

  /** The start of the run of non-space characters that ends at `p`. */
  function RunStart(line: string, p: nat): (i: nat)
    requires p <= |line|
    ensures i <= p
    ensures forall m :: i <= m < p ==> !IsSpace(line[m])
    ensures i == 0 || IsSpace(line[i - 1])
    decreases p
  {
    if p == 0 || IsSpace(line[p - 1]) then p else RunStart(line, p - 1)
  }

  /** The end of the run of non-space characters that starts at `p`. */
  function RunEnd(line: string, p: nat): (j: nat)
    requires p <= |line|
    ensures p <= j <= |line|
    ensures forall m :: p <= m < j ==> !IsSpace(line[m])
    ensures j == |line| || IsSpace(line[j])
    decreases |line| - p
  {
    if p == |line| || IsSpace(line[p]) then p else RunEnd(line, p + 1)
  }

  /** `re.search(r'(\S+@\S+)', line)`: group 1. */
  function EmailToken(line: string): Option<string> {
    var p := FirstInnerAt(line, 0);
    if p == |line| then None else Some(line[RunStart(line, p)..RunEnd(line, p)])
  }

  /**
   * EmailToken is the leftmost, greedy match: it fails exactly when no `@`
   * has a non-space character on each side, and otherwise it is the whole
   * whitespace-delimited word around the first such `@`.
   */
  lemma EmailTokenSpec(line: string)
    ensures EmailToken(line).None? <==> forall p :: !InnerAt(line, p)
    ensures EmailToken(line).Some? ==>
      exists i, p, j :: 0 <= i < p < j <= |line| && InnerAt(line, p) && EmailToken(line).value == line[i..j]
        && (i == 0 || IsSpace(line[i - 1])) && (j == |line| || IsSpace(line[j]))
        && (forall m :: i <= m < j ==> !IsSpace(line[m]))
        && (forall m :: 0 <= m < p ==> !InnerAt(line, m))
  {
    var p := FirstInnerAt(line, 0);
    if p < |line| {
      var i := RunStart(line, p);
      var j := RunEnd(line, p);
      assert i < p by { assert !IsSpace(line[p - 1]); }
      assert p < j by { assert !IsSpace(line[p]) by { assert line[p] == '@'; } }
    }
  }

  // ---------------------------------------------------------------- the roll subject

  /** The groups of the roll pattern; `count` is `int()` of group 4. */
  datatype RollGroups = RollGroups(repo: string, fromHash: string, toHash: string, count: nat)

  /** The end of the run of `[a-zA-Z0-9]` characters that starts at `i`. */
  function AlnumRunEnd(s: string, i: nat): (j: nat)
    requires i <= |s|
    ensures i <= j <= |s|
    ensures forall m :: i <= m < j ==> IsAlnum(s[m])
    ensures j < |s| ==> !IsAlnum(s[j])
    decreases |s| - i
  {
    if i < |s| && IsAlnum(s[i]) then AlnumRunEnd(s, i + 1) else i
  }

  /**
   * The end of the roll pattern from group 3 on, `([a-zA-Z0-9]+) \((\d+) commits\)`,
   * matches at `c`. Group 3 and group 4 are the whole runs: the character after
   * each is a space, which neither class contains, so backtracking cannot shorten them.
   */
  predicate RollTailAt(s: string, c: nat)
    requires c <= |s|
  {
    var e := AlnumRunEnd(s, c);
    && e > c && StartsWith(s[e..], " (")
    && var f := DigitRunEnd(s, e + 2);
    f > e + 2 && StartsWith(s[f..], " commits)")
  }

  /**
   * The roll pattern matches `s` with group 1 ending at `a` (the space before
   * group 2), group 2 being `s[a + 1..b]` and `..` matching `s[b..b + 2]`.
   */
  predicate RollAt(s: string, a: int, b: int) {
    && StartsWith(s, "Roll ") && 5 <= a && a + 2 <= b && b + 2 <= |s|
    && s[a] == ' ' && (forall k :: 5 <= k < a ==> s[k] != '\n')
    && AllAlnum(s[a + 1..b]) && s[b] != '\n' && s[b + 1] != '\n'
    && RollTailAt(s, b + 2)
  }

  /** The four groups of the match described by RollAt(s, a, b). */
  function GroupsAt(s: string, a: int, b: int): RollGroups
    requires RollAt(s, a, b)
  {
    var e := AlnumRunEnd(s, b + 2);
    var f := DigitRunEnd(s, e + 2);
    DigitsSlice(s, e + 2, f);
    RollGroups(s[5..a], s[a + 1..b], s[b + 2..e], DigitsValue(s[e + 2..f]))
  }

  /** The greatest `b' <= b` for which RollAt(s, a, b') holds: group 2 tried longest first. */
  function LastRollB(s: string, a: int, b: int): (r: Option<int>)
    ensures r.Some? ==> r.value <= b && RollAt(s, a, r.value)
    ensures forall b' :: b' <= b && (r.None? || r.value < b') ==> !RollAt(s, a, b')
    decreases b - a
  {
    if b < a + 2 then None
    else if RollAt(s, a, b) then Some(b)
    else LastRollB(s, a, b - 1)
  }

  /** The greatest `a' <= a` for which some group 2 fits: group 1 tried longest first. */
  function LastRollA(s: string, a: int): (r: Option<(int, int)>)
    ensures r.Some? ==> r.value.0 <= a && RollAt(s, r.value.0, r.value.1)
    ensures r.Some? ==> forall b' :: RollAt(s, r.value.0, b') ==> b' <= r.value.1
    ensures forall a', b' :: a' <= a && (r.None? || r.value.0 < a') ==> !RollAt(s, a', b')
    decreases a
  {
    if a < 5 then None
    else match LastRollB(s, a, |s|)
      case Some(b) => Some((a, b))
      case None => LastRollA(s, a - 1)
  }

  /**
   * `re.match(r'Roll (.*) ([a-zA-Z0-9]+)..([a-zA-Z0-9]+) \((\d+) commits\)', s)`:
   * the groups of the match Python's backtracking finds, or None.
   */
  function RollMatch(s: string): Option<RollGroups> {
    match LastRollA(s, |s|)
    case None => None
    case Some((a, b)) => Some(GroupsAt(s, a, b))
  }

  /**
   * RollMatch fails exactly when the pattern matches nowhere; otherwise it
   * returns the match with the longest group 1 and, among those, the longest
   * group 2 (the order in which greedy backtracking tries them).
   */
  lemma RollMatchSpec(s: string)
    ensures RollMatch(s).None? <==> forall a, b :: !RollAt(s, a, b)
    ensures RollMatch(s).Some? ==>
      exists a, b :: RollAt(s, a, b) && RollMatch(s).value == GroupsAt(s, a, b)
        && forall a', b' :: RollAt(s, a', b') ==> a' < a || (a' == a && b' <= b)
  {
    forall a, b | RollAt(s, a, b) ensures a <= |s| { }
  }

  /** A match reassembles the subject: the groups, the two `..` characters and the literals. */
  lemma RollAtParses(s: string, a: int, b: int)
    requires RollAt(s, a, b)
    ensures var g := GroupsAt(s, a, b);
      && |g.fromHash| > 0 && AllAlnum(g.fromHash) && |g.toHash| > 0 && AllAlnum(g.toHash)
      && exists digits :: |digits| > 0 && AllDigits(digits) && DigitsValue(digits) == g.count
           && StartsWith(s, "Roll " + g.repo + " " + g.fromHash + s[b..b + 2] + g.toHash + " (" + digits + " commits)")
  {
    var g := GroupsAt(s, a, b);
    var e := AlnumRunEnd(s, b + 2);
    var f := DigitRunEnd(s, e + 2);
    var digits := s[e + 2..f];
    DigitsSlice(s, e + 2, f);
    AlnumSlice(s, b + 2, e);
    PrefixGrows(s, 5, a, "Roll ", g.repo);
    PrefixGrows(s, a, a + 1, "Roll " + g.repo, " ");
    PrefixGrows(s, a + 1, b, "Roll " + g.repo + " ", g.fromHash);
    PrefixGrows(s, b, b + 2, "Roll " + g.repo + " " + g.fromHash, s[b..b + 2]);
    PrefixGrows(s, b + 2, e, "Roll " + g.repo + " " + g.fromHash + s[b..b + 2], g.toHash);
    assert s[e..e + 2] == " (";
    PrefixGrows(s, e, e + 2, "Roll " + g.repo + " " + g.fromHash + s[b..b + 2] + g.toHash, " (");
    PrefixGrows(s, e + 2, f, "Roll " + g.repo + " " + g.fromHash + s[b..b + 2] + g.toHash + " (", digits);
    assert s[f..f + 9] == " commits)";
    PrefixGrows(s, f, f + 9, "Roll " + g.repo + " " + g.fromHash + s[b..b + 2] + g.toHash + " (" + digits, " commits)");
  }
}
