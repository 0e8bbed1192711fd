/**
 * The reader of `git log --shortstat` output in base.py: the per-line step
 * `ChromiumRepo._parse_line` (and its near-copy `Util.parse_git_line`), the
 * block assembler `ChromiumRepo._parse_lines`, which writes one record per
 * commit into a revision dictionary, and `ChromiumRepo._get_head_rev`.
 *
 * Python exceptions are error results: an IndexError when a `Date:` line has
 * no line two below it, a ValueError when `int()` rejects a footer's revision
 * text, and an AttributeError when the roll flag is set but the current
 * subject no longer matches the roll pattern. The dictionary is changed in
 * place, so the writes made before an exception stay.
 */
module CommitLog {
  import opened Wrappers
  import opened Text
  import opened LogPatterns

  /** `ChromiumRepo.FAKE_REV`: the revision of a block without a revision footer, and the empty-cache bound. */
  const FAKE_REV: int := 9999999

  /** The eight accumulators `tmp_rev` ... `tmp_is_roll` threaded through the line step. */
  datatype LineState = LineState(
    rev: int, hash: string, author: string, date: string, subject: string,
    insertion: int, deletion: int, isRoll: bool)

  /** The accumulators as they are before the first line and after every `commit` line. */
  const Initial: LineState := LineState(FAKE_REV, "", "", "", "", -1, -1, false)

  datatype ParseError =
    | SubjectMissing(index: nat)           // `lines[index]` is out of range: a `Date:` line too near the end
    | BadRevision(text: string)            // `int()` rejects the revision text of a footer
    | RollSubjectMismatch(subject: string) // the roll flag is set but the subject does not match the roll pattern

  /** Lines come from `out.split('\n')`, so none holds a newline. */
  predicate NoNewlines(lines: seq<string>) {
    forall k :: 0 <= k < |lines| ==> '\n' !in lines[k]
  }

  /** `r` occurs in `s` as a contiguous slice. */
  predicate IsSlice(r: string, s: string) {
    exists a, b :: 0 <= a <= b <= |s| && r == s[a..b]
  }

  // ---------------------------------------------------------------- the author line

  /**
   * The author of an `Author:` line: the capture of `<(.*@.*)@.*>`, else the
   * first `\S+@\S+` token without its leading `<`s and trailing `>`s, else
   * the line with every `Author:` removed, stripped.
   */
  function ExtractAuthor(line: string): (r: string)
    requires '\n' !in line
    ensures AngleCapture(line).Some? || EmailToken(line).Some? ==> '@' in r && IsSlice(r, line)
    ensures AngleCapture(line).Some? ==> r == AngleCapture(line).value
    ensures AngleCapture(line).None? && EmailToken(line).Some? ==>
              r == RStripChar(LStripChar(EmailToken(line).value, '<'), '>')
    ensures AngleCapture(line).None? && EmailToken(line).None? ==>
              r == [] || (!IsSpace(r[0]) && !IsSpace(r[|r| - 1]))
  {
    match AngleCapture(line)
    case Some(a) =>
      AngleCaptureSpec(line);
      a
    case None =>
      match EmailToken(line)
      case Some(t) =>
        AuthorFromToken(line, FirstInnerAt(line, 0));
        RStripChar(LStripChar(t, '<'), '>')
      case None => Strip(ReplaceAll(line, "Author:", ""))
  }

  /** Stripping `<` and `>` from the ends of the email token around `p` keeps its `@` and leaves a slice of the line. */
  lemma AuthorFromToken(line: string, p: nat)
    requires p < |line| && InnerAt(line, p)
    ensures var t := line[RunStart(line, p)..RunEnd(line, p)];
      var b := RStripChar(LStripChar(t, '<'), '>');
      '@' in b && IsSlice(b, line)
  {
    TokenAround(line, p);
    TokenStripped(line, RunStart(line, p), RunEnd(line, p), p);
  }

  /** Stripping `<` and `>` from the ends of a slice holding an `@` keeps the `@` and leaves a slice of the line. */
  lemma TokenStripped(line: string, i: nat, j: nat, q: nat)
    requires i <= q < j <= |line| && line[q] == '@'
    ensures var b := RStripChar(LStripChar(line[i..j], '<'), '>');
      '@' in b && IsSlice(b, line)
  {
    var t := line[i..j];
    assert t[q - i] == '@';
    var b := RStripChar(LStripChar(t, '<'), '>');
    var lo := StripAngles(t, q - i);
    assert b[q - i - lo] == '@';
    SliceIsSlice(line, i, j, b, lo);
  }

  /** A slice of a slice of `line` is a slice of `line`. */
  lemma SliceIsSlice(line: string, i: nat, j: nat, b: string, lo: nat)
    requires i <= j <= |line| && lo + |b| <= j - i && b == line[i..j][lo..lo + |b|]
    ensures IsSlice(b, line)
  {
    SliceOfSlice(line, i, j, lo, lo + |b|);
    assert b == line[i + lo..i + lo + |b|];
  }

  /** The whitespace-delimited word around an InnerAt position extends on both sides of it. */
  lemma TokenAround(line: string, p: nat)
    requires p < |line| && InnerAt(line, p)
    ensures RunStart(line, p) < p < RunEnd(line, p)
  {
    assert !IsSpace(line[p - 1]);
    assert line[p] == '@';
  }

  // ---------------------------------------------------------------- one line

  /** Which footer flavour the line step accepts: `_parse_line` takes main or master, `parse_git_line` main only. */
  const RepoFooter: BranchFooter := MainOrMaster
  const UtilFooter: BranchFooter := MainOnly

  /** The revision text a stripped line carries: the svn footer's, else the Cr-Commit-Position footer's. */
  function FooterText(f: BranchFooter, s: string): Option<string>
    requires '\n' !in s
  {
    if SvnRevisionText(s).Some? then SvnRevisionText(s) else CrRevisionText(s, f)
  }

  /** A footer is present but `int()` rejects its revision text. */
  predicate RevisionFails(f: BranchFooter, s: string)
    requires '\n' !in s
  {
    FooterText(f, s).Some? && ParseInt(FooterText(f, s).value).None?
  }

  /** The revision a stripped line sets, if any. */
  function FooterRevision(f: BranchFooter, s: string): Option<int>
    requires '\n' !in s
  {
    if FooterText(f, s).Some? then ParseInt(FooterText(f, s).value) else None
  }

  /** The two footers start with different letters, so at most one matches a line. */
  lemma FootersExclusive(s: string, f: BranchFooter)
    requires '\n' !in s
    ensures SvnRevisionText(s).Some? ==> CrRevisionText(s, f).None?
  {
    if SvnRevisionText(s).Some? {
      SvnStartsWithG(s);
      CrStartsWithC(s, f);
    }
  }

  /** A `Date:` line with no line two below it: the subject lookup raises IndexError. */
  predicate SubjectMissingAt(lines: seq<string>, index: nat)
    requires index < |lines|
  {
    StartsWith(lines[index], "Date:") && index + 2 >= |lines|
  }

  /** A `Date:` line whose subject, two lines below, is a roll of a repository other than `src-internal`. */
  predicate RollSubjectAt(lines: seq<string>, index: nat)
    requires index < |lines|
  {
    && StartsWith(lines[index], "Date:") && index + 2 < |lines|
    && var roll := RollMatch(Strip(lines[index + 2]));
    roll.Some? && roll.value.repo != "src-internal"
  }

  /** `int()` of the leftmost count match, or 0 when the clause is absent. */
  function CountOrZero(s: string, word: string, sign: char): nat {
    match SearchCount(s, word, sign)
    case Some(n) => n
    case None => 0
  }

  /** Apply `tmp_rev = int(group)` when the footer matched. */
  function ApplyRevision(text: Option<string>, rev: int): (r: Result<int, ParseError>)
    ensures text.None? ==> r == Ok(rev)
  {
    match text
    case None => Ok(rev)
    case Some(t) =>
      match ParseInt(t)
      case Some(v) => Ok(v)
      case None => Err(BadRevision(t))
  }

  /**
   * The hash, author and date-and-subject steps of the line step: they look
   * at the raw line and, for a `Date:` line, at the line two below it.
   */
  function HeaderStep(lines: seq<string>, index: nat, st: LineState): (r: Result<LineState, ParseError>)
    requires index < |lines| && NoNewlines(lines)
    ensures r.Err? <==> SubjectMissingAt(lines, index)
    ensures r.Ok? ==> r.value.hash == (if StartsWith(lines[index], "commit ") then lines[index][7..] else st.hash)
    ensures r.Ok? ==> r.value.author == (if IsAuthorLine(lines[index]) then ExtractAuthor(lines[index]) else st.author)
    ensures r.Ok? ==> (r.value.isRoll <==> st.isRoll || RollSubjectAt(lines, index))
    ensures r.Ok? && StartsWith(lines[index], "Date:") ==>
              r.value.date == Strip(lines[index][5..]) && r.value.subject == Strip(lines[index + 2])
    ensures r.Ok? && !StartsWith(lines[index], "Date:") ==> r.value.date == st.date && r.value.subject == st.subject
    ensures r.Ok? ==> r.value.rev == st.rev && r.value.insertion == st.insertion && r.value.deletion == st.deletion
  {
    var line := lines[index];
    assert '\n' !in line;
    // hash
    var hash := match CommitHash(line) case Some(h) => h case None => st.hash;
    // author
    var author := if IsAuthorLine(line) then ExtractAuthor(line) else st.author;
    // date & subject
    match DateText(line)
    case None => Ok(st.(hash := hash, author := author))
    case Some(d) =>
      if index + 2 >= |lines| then Err(SubjectMissing(index + 2))
      else
        var subject := Strip(lines[index + 2]);
        var roll := RollMatch(subject);
        var isRoll := if roll.Some? && roll.value.repo != "src-internal" then true else st.isRoll;
        Ok(st.(hash := hash, author := author, date := Strip(d), subject := subject, isRoll := isRoll))
  }

  /**
   * The svn footer, Cr-Commit-Position footer and shortstat steps of the
   * line step, which look at the stripped line `s`.
   */
  function FooterStep(f: BranchFooter, s: string, st: LineState): (r: Result<LineState, ParseError>)
    requires '\n' !in s
    ensures r.Err? <==> RevisionFails(f, s)
    ensures r.Ok? ==> r.value.rev == (if FooterRevision(f, s).Some? then FooterRevision(f, s).value else st.rev)
    ensures r.Ok? && IsShortstat(s) ==>
              r.value.insertion == CountOrZero(s, "insertion", '+') && r.value.deletion == CountOrZero(s, "deletion", '-')
    ensures r.Ok? && !IsShortstat(s) ==> r.value.insertion == st.insertion && r.value.deletion == st.deletion
    ensures r.Ok? ==> r.value.(rev := st.rev, insertion := st.insertion, deletion := st.deletion) == st
  {
    FootersExclusive(s, f);
    // rev: the svn footer, then the Cr-Commit-Position footer
    match ApplyRevision(SvnRevisionText(s), st.rev)
    case Err(e) => Err(e)
    case Ok(rev1) =>
      match ApplyRevision(CrRevisionText(s, f), rev1)
      case Err(e) => Err(e)
      case Ok(rev2) =>
        if IsShortstat(s) then
          Ok(st.(rev := rev2,
                 insertion := CountOrZero(s, "insertion", '+'),
                 deletion := CountOrZero(s, "deletion", '-')))
        else Ok(st.(rev := rev2))
  }

  /**
   * The line step `_parse_line(lines, index, state)` with footer flavour `f`:
   * the hash, author, date-and-subject, svn footer, Cr footer and shortstat
   * steps in the order of the source.
   */
  function ParseLineWith(f: BranchFooter, lines: seq<string>, index: nat, st: LineState)
    : (r: Result<LineState, ParseError>)
    requires index < |lines| && NoNewlines(lines)
    ensures r.Err? <==> SubjectMissingAt(lines, index) || RevisionFails(f, Strip(lines[index]))
    ensures r.Ok? ==>
              && HeaderStep(lines, index, st).Ok?
              && r == FooterStep(f, Strip(lines[index]), HeaderStep(lines, index, st).value)
    ensures r.Ok? ==> (r.value.deletion >= 0 <==> st.deletion >= 0 || IsShortstat(Strip(lines[index])))
  {
    assert '\n' !in lines[index];
    match HeaderStep(lines, index, st)
    case Err(e) => Err(e)
    case Ok(s1) => FooterStep(f, Strip(lines[index]), s1)
  }

  /** `ChromiumRepo._parse_line`: footers on `refs/heads/main` or `refs/heads/master`. */
  function ParseLine(lines: seq<string>, index: nat, st: LineState): Result<LineState, ParseError>
    requires index < |lines| && NoNewlines(lines)
  {
    ParseLineWith(RepoFooter, lines, index, st)
  }

  /** `Util.parse_git_line`: footers on `refs/heads/main` only. */
  function ParseGitLine(lines: seq<string>, index: nat, st: LineState): Result<LineState, ParseError>
    requires index < |lines| && NoNewlines(lines)
  {
    ParseLineWith(UtilFooter, lines, index, st)
  }

  /**
   * The two copies of the line step agree on every line except a
   * `refs/heads/master` Cr-Commit-Position footer, which only `_parse_line` reads.
   */
  lemma LineStepsAgree(lines: seq<string>, index: nat, st: LineState)
    requires index < |lines| && NoNewlines(lines)
    requires !StartsWith(Strip(lines[index]), CrMaster)
    ensures ParseGitLine(lines, index, st) == ParseLine(lines, index, st)
  {
    assert '\n' !in lines[index];
    var h := HeaderStep(lines, index, st);
    if h.Ok? {
      FooterStepsAgree(Strip(lines[index]), h.value);
    }
  }

  /** The footer steps of the two copies agree on every line that is not a master footer. */
  lemma FooterStepsAgree(s: string, st: LineState)
    requires '\n' !in s && !StartsWith(s, CrMaster)
    ensures FooterStep(UtilFooter, s, st) == FooterStep(RepoFooter, s, st)
  {
    CrFlavoursAgree(s);
  }

  /**
   * On a master footer the copies differ: `_parse_line` reads revision
   * 349370 from `Cr-Commit-Position: refs/heads/master@{#349370}`, while
   * `parse_git_line` sees no footer there.
   */
  lemma MasterFooterOnlyInRepoStep()
    ensures var line := CrMaster + "349370}";
      && '\n' !in line && Strip(line) == line
      && FooterRevision(RepoFooter, line) == Some(349370)
      && FooterRevision(UtilFooter, line) == None
  {
    var line := CrMaster + "349370}";
    MasterFooterLine();
    assert FooterText(RepoFooter, line) == Some("349370");
    assert FooterText(UtilFooter, line) == None;
    RevisionOf349370();
  }

  /** `int('349370') == 349370`. */
  lemma RevisionOf349370()
    ensures ParseInt("349370") == Some(349370)
  {
    ParseIntOfDigits("349370");
    ValueOf349370();
  }

  lemma ValueOf349370()
    ensures AllDigits("349370") && DigitsValue("349370") == 349370
  {
    assert "349370"[..5] == "34937" && "34937"[..4] == "3493" && "3493"[..3] == "349";
    assert "349"[..2] == "34" && "34"[..1] == "3" && "3"[..0] == "";
  }

  /** The `master` footer line is one stripped line, and not an svn footer. */
  lemma MasterFooterPlain()
    ensures var line := CrMaster + "349370}";
      '\n' !in line && Strip(line) == line && SvnRevisionText(line) == None
  {
    var line := CrMaster + "349370}";
    assert line[0] == 'C' && line[|line| - 1] == '}';
    StripUnchanged(line);
    assert !MatchesPrefix(line, SvnPrefix) by { assert line[0] != SvnPrefix[0]; }
  }

  /** Only the `main|master` flavour finds a footer head in the `master` footer line. */
  lemma MasterFooterHeads()
    ensures var line := CrMaster + "349370}";
      CrHeadOf(line, MainOrMaster) == Some(CrMaster) && CrHeadOf(line, MainOnly) == None
  {
    var line := CrMaster + "349370}";
    assert !StartsWith(line, CrMain) by { assert line[33] != CrMain[33]; }
    assert StartsWith(line, CrMaster);
  }

  /** What the footer patterns make of `Cr-Commit-Position: refs/heads/master@{#349370}`. */
  lemma MasterFooterLine()
    ensures var line := CrMaster + "349370}";
      && '\n' !in line && Strip(line) == line
      && SvnRevisionText(line) == None
      && CrRevisionText(line, MainOrMaster) == Some("349370")
      && CrRevisionText(line, MainOnly) == None
  {
    var line := CrMaster + "349370}";
    MasterFooterPlain();
    MasterFooterHeads();
    assert LastIndexBefore(line, '}', |line|) == |line| - 1;
    assert line[|CrMaster|..|line| - 1] == "349370";
  }

  /** A `commit` line only sets the hash: no other step matches a line that starts with `commit `. */
  lemma CommitLineSetsHash(f: BranchFooter, lines: seq<string>, index: nat, st: LineState)
    requires index < |lines| && NoNewlines(lines)
    requires StartsWith(lines[index], "commit ")
    ensures ParseLineWith(f, lines, index, st) == Ok(st.(hash := lines[index][7..]))
  {
    var line := lines[index];
    assert line[0] == 'c';
    StripKeepsFirst(line);
    FooterOfCommitLine(f, Strip(line), HeaderStep(lines, index, st).value);
  }

  /** No footer step matches a stripped line that starts with 'c'. */
  lemma FooterOfCommitLine(f: BranchFooter, s: string, st: LineState)
    requires '\n' !in s && |s| > 0 && s[0] == 'c'
    ensures FooterStep(f, s, st) == Ok(st)
  {
    assert !MatchesPrefix(s, SvnPrefix) by { assert s[0] != SvnPrefix[0]; }
    assert CrHeadOf(s, f).None? by {
      assert !StartsWith(s, CrMain) by { assert s[0] != CrMain[0]; }
      assert !StartsWith(s, CrMaster) by { assert s[0] != CrMaster[0]; }
    }
    assert !IsShortstat(s) by { assert DigitRunEnd(s, 0) == 0; }
  }

  // ---------------------------------------------------------------- the revision dictionary

  /** A stored record `[hash, roll_repo, roll_hash, roll_count]`. */
  datatype Record = Record(hash: string, rollRepo: string, rollHash: string, rollCount: nat)

  /**
   * The dictionary `{rev: record}` with its insertion order: Python dicts
   * iterate keys in the order they were first inserted, and
   * `_get_head_rev` returns the first one.
   */
  datatype RevInfo = RevInfo(entries: map<int, Record>, order: seq<int>)

  const EmptyInfo: RevInfo := RevInfo(map[], [])

  /** The order lists every key once. */
  ghost predicate ValidInfo(info: RevInfo) {
    && (forall i, j :: 0 <= i < j < |info.order| ==> info.order[i] != info.order[j])
    && (forall k :: k in info.entries <==> k in info.order)
  }

  /** The dictionary is empty exactly when its order is, and the first key in the order is a key. */
  lemma FirstKeyStored(info: RevInfo)
    requires ValidInfo(info)
    ensures |info.order| == 0 <==> info.entries == map[]
    ensures |info.order| > 0 ==> info.order[0] in info.entries
  {
    if |info.order| > 0 {
      assert info.order[0] in info.order;
    } else {
      assert forall k :: k !in info.entries;
    }
  }

  /** `rev_info[rev] = rec`: a new key goes to the end of the order, an existing one keeps its place. */
  function Put(info: RevInfo, rev: int, rec: Record): (r: RevInfo)
    ensures r.entries == info.entries[rev := rec]
    ensures ValidInfo(info) ==> ValidInfo(r)
    ensures |info.order| > 0 ==> |r.order| > 0 && r.order[0] == info.order[0]
  {
    if rev in info.entries then info.(entries := info.entries[rev := rec])
    else RevInfo(info.entries[rev := rec], info.order + [rev])
  }

  /** A dictionary, and the exception that stopped the writes to it, if any. */
  datatype Parsed = Parsed(info: RevInfo, error: Option<ParseError>)

  /**
   * The write `_parse_lines` makes once `tmp_deletion >= 0`: the plain record,
   * then, for a roll, its slots 1-3 from the roll pattern's groups 1, 3 and 4.
   * When the roll flag is set but the subject does not match, the plain
   * record stays written and the error is returned.
   */
  function Store(info: RevInfo, st: LineState): (r: Parsed)
    ensures r.info.entries.Keys == info.entries.Keys + {st.rev}
    ensures forall k :: k in info.entries && k != st.rev ==> r.info.entries[k] == info.entries[k]
    ensures r.error.Some? <==> st.isRoll && RollMatch(st.subject).None?
    ensures r.info.entries[st.rev].hash == st.hash
    ensures !st.isRoll ==> r.info.entries[st.rev] == Record(st.hash, "", "", 0)
    ensures st.isRoll && RollMatch(st.subject).Some? ==>
              var g := RollMatch(st.subject).value;
              r.info.entries[st.rev] == Record(st.hash, g.repo, g.toHash, g.count)
    ensures ValidInfo(info) ==> ValidInfo(r.info)
    ensures |info.order| > 0 ==> |r.info.order| > 0 && r.info.order[0] == info.order[0]
  {
    var plain := Put(info, st.rev, Record(st.hash, "", "", 0));
    if !st.isRoll then Parsed(plain, None)
    else
      match RollMatch(st.subject)
      case None => Parsed(plain, Some(RollSubjectMismatch(st.subject)))
      case Some(g) => Parsed(Put(plain, st.rev, Record(st.hash, g.repo, g.toHash, g.count)), None)
  }

  /** Writing the same block state twice is the same as writing it once. */
  lemma StoreIdempotent(info: RevInfo, st: LineState)
    requires Store(info, st).error.None?
    ensures Store(Store(info, st).info, st) == Store(info, st)
  {
    var r1 := Store(info, st).info;
    assert st.rev in r1.entries;
    var plain := Record(st.hash, "", "", 0);
    if !st.isRoll {
      assert r1.entries[st.rev := plain] == r1.entries;
    } else {
      var g := RollMatch(st.subject).value;
      var roll := Record(st.hash, g.repo, g.toHash, g.count);
      assert r1.entries[st.rev := plain][st.rev := roll] == r1.entries;
    }
  }

  // ---------------------------------------------------------------- the block assembler

  /** The accumulators the line step starts from: reset on a `commit` line. */
  function StepStart(line: string, st: LineState): LineState {
    if StartsWith(line, "commit ") then Initial else st
  }

  /** The loop of `_parse_lines` from line `index` on, with accumulators `st` and dictionary `info`. */
  function ParseFrom(lines: seq<string>, index: nat, st: LineState, info: RevInfo): Parsed
    requires index <= |lines| && NoNewlines(lines)
    decreases |lines| - index, 1
  {
    if index == |lines| then Parsed(info, None) else ParseAt(lines, index, st, info)
  }

  /**
   * One turn of that loop at line `index`: the line step, the store once a
   * shortstat line has been seen, then the rest of the loop.
   */
  function ParseAt(lines: seq<string>, index: nat, st: LineState, info: RevInfo): Parsed
    requires index < |lines| && NoNewlines(lines)
    decreases |lines| - index, 0
  {
    match ParseLine(lines, index, StepStart(lines[index], st))
    case Err(e) => Parsed(info, Some(e))
    case Ok(st1) =>
      if st1.deletion < 0 then ParseFrom(lines, index + 1, st1, info)
      else
        var stored := Store(info, st1);
        if stored.error.Some? then stored
        else ParseFrom(lines, index + 1, st1, stored.info)
  }

  /**
   * One turn of the loop of `_parse_lines` at line `index`: reset the
   * accumulators on a `commit` line, run the line step, and write the
   * block's record once its shortstat line has been seen.
   */
  method ParseTurn(lines: seq<string>, index: nat, st: LineState, info: RevInfo)
    returns (st1: LineState, info1: RevInfo, error: Option<ParseError>)
    requires index < |lines| && NoNewlines(lines)
    ensures error.Some? ==> ParseFrom(lines, index, st, info) == Parsed(info1, error)
    ensures error.None? ==> ParseFrom(lines, index, st, info) == ParseFrom(lines, index + 1, st1, info1)
  {
    st1, info1, error := st, info, None;
    var line := lines[index];
    if StartsWith(line, "commit ") {
      st1 := Initial;
    }
    var step := ParseLine(lines, index, st1);
    if step.Err? {
      error := Some(step.error);
      return;
    }
    st1 := step.value;
    if st1.deletion >= 0 {
      var stored := Store(info, st1);
      info1, error := stored.info, stored.error;
    }
  }

  /**
   * `_parse_lines(lines, rev_info)`: reads the lines in order, resetting the
   * accumulators on each `commit` line and writing the record of the current
   * block into the dictionary after every line once its shortstat line has
   * been seen.
   */
  method ParseLines(lines: seq<string>, info0: RevInfo) returns (info: RevInfo, error: Option<ParseError>)
    requires NoNewlines(lines)
    ensures Parsed(info, error) == ParseFrom(lines, 0, Initial, info0)
  {
    info := info0;
    error := None;
    var st := Initial;
    var index := 0;
    while index < |lines|
      invariant 0 <= index <= |lines| && error == None
      invariant ParseFrom(lines, 0, Initial, info0) == ParseFrom(lines, index, st, info)
    {
      st, info, error := ParseTurn(lines, index, st, info);
      if error.Some? {
        return;
      }
      index := index + 1;
    }
  }

  /** Keys once stored stay stored, and the dictionary stays well formed. */
  lemma {:induction false} ParseFromGrows(lines: seq<string>, index: nat, st: LineState, info: RevInfo)
    requires index <= |lines| && NoNewlines(lines)
    ensures info.entries.Keys <= ParseFrom(lines, index, st, info).info.entries.Keys
    ensures ValidInfo(info) ==> ValidInfo(ParseFrom(lines, index, st, info).info)
    ensures |info.order| > 0 ==>
              |ParseFrom(lines, index, st, info).info.order| > 0
              && ParseFrom(lines, index, st, info).info.order[0] == info.order[0]
    decreases |lines| - index
  {
    if index < |lines| {
      var step := ParseLine(lines, index, StepStart(lines[index], st));
      if step.Ok? {
        var st1 := step.value;
        if st1.deletion < 0 {
          ParseFromGrows(lines, index + 1, st1, info);
        } else if Store(info, st1).error.None? {
          ParseFromGrows(lines, index + 1, st1, Store(info, st1).info);
        }
      }
    }
  }

  /** No line of `lines[index..]` is a shortstat line. */
  predicate NoShortstatFrom(lines: seq<string>, index: nat)
    requires index <= |lines|
  {
    forall j :: index <= j < |lines| ==> !IsShortstat(Strip(lines[j]))
  }

  /** Without a `N files changed` line nothing is stored: `tmp_deletion` stays negative. */
  lemma {:induction false} NoShortstatStoresNothing(lines: seq<string>, index: nat, st: LineState, info: RevInfo)
    requires index <= |lines| && NoNewlines(lines)
    requires st.deletion < 0
    requires NoShortstatFrom(lines, index)
    ensures ParseFrom(lines, index, st, info).info == info
    decreases |lines| - index
  {
    if index < |lines| {
      var st0 := StepStart(lines[index], st);
      var step := ParseLine(lines, index, st0);
      if step.Ok? {
        assert !IsShortstat(Strip(lines[index]));
        NoShortstatStoresNothing(lines, index + 1, step.value, info);
      }
    }
  }

  /** A revision that some line's footer sets. */
  predicate FooterRevisionIn(lines: seq<string>, rev: int)
    requires NoNewlines(lines)
  {
    exists j :: 0 <= j < |lines| && FooterRevision(RepoFooter, Strip(lines[j])) == Some(rev)
  }

  /** The strip of a line from `split('\n')` has no newline either. */
  lemma StripNoNewline(lines: seq<string>, j: nat)
    requires j < |lines| && NoNewlines(lines)
    ensures '\n' !in Strip(lines[j])
  {
  }

  /**
   * Every key `_parse_lines` adds is either a revision read from a footer
   * line or `FAKE_REV`: a block without a footer is stored, under `FAKE_REV`.
   */
  lemma {:induction false} StoredKeysFromFooters(lines: seq<string>, index: nat, st: LineState, info: RevInfo)
    requires index <= |lines| && NoNewlines(lines)
    requires st.rev == FAKE_REV || FooterRevisionIn(lines, st.rev)
    ensures forall k :: k in ParseFrom(lines, index, st, info).info.entries && k !in info.entries ==>
              k == FAKE_REV || FooterRevisionIn(lines, k)
    decreases |lines| - index
  {
    if index < |lines| {
      var st0 := StepStart(lines[index], st);
      var step := ParseLine(lines, index, st0);
      if step.Ok? {
        var st1 := step.value;
        var s := Strip(lines[index]);
        StripNoNewline(lines, index);
        if FooterRevision(RepoFooter, s).Some? {
          assert st1.rev == FooterRevision(RepoFooter, s).value;
          assert FooterRevisionIn(lines, st1.rev);
        } else {
          assert st1.rev == st0.rev;
        }
        if st1.deletion < 0 {
          StoredKeysFromFooters(lines, index + 1, st1, info);
        } else {
          var info1 := Store(info, st1).info;
          if Store(info, st1).error.None? {
            StoredKeysFromFooters(lines, index + 1, st1, info1);
          }
        }
      }
    }
  }

  /** When no line carries a revision footer, every block that is stored lands under `FAKE_REV`. */
  lemma FooterlessBlocksUnderFakeRev(lines: seq<string>)
    requires NoNewlines(lines)
    requires forall j :: 0 <= j < |lines| ==> FooterRevision(RepoFooter, Strip(lines[j])).None?
    ensures ParseFrom(lines, 0, Initial, EmptyInfo).info.entries.Keys <= {FAKE_REV}
  {
    StoredKeysFromFooters(lines, 0, Initial, EmptyInfo);
    forall k | k in ParseFrom(lines, 0, Initial, EmptyInfo).info.entries ensures k == FAKE_REV {
      assert !FooterRevisionIn(lines, k);
    }
  }

  // ---------------------------------------------------------------- the loop up to a line

  /** The variables of the loop of `_parse_lines` between turns: accumulators, dictionary, raised exception. */
  datatype Loop = Loop(st: LineState, info: RevInfo, error: Option<ParseError>)

  /**
   * The loop started at line `index` with `st` and `info`, run up to line
   * `j`: the variables it carries into line `j`, or the exception that
   * stopped it before.
   */
  function LoopTo(lines: seq<string>, index: nat, st: LineState, info: RevInfo, j: nat): Loop
    requires index <= j <= |lines| && NoNewlines(lines)
    decreases j - index
  {
    if index == j then Loop(st, info, None)
    else
      match ParseLine(lines, index, StepStart(lines[index], st))
      case Err(e) => Loop(st, info, Some(e))
      case Ok(st1) =>
        if st1.deletion < 0 then LoopTo(lines, index + 1, st1, info, j)
        else
          var stored := Store(info, st1);
          if stored.error.Some? then Loop(st1, stored.info, stored.error)
          else LoopTo(lines, index + 1, st1, stored.info, j)
  }

  /**
   * A shortstat line reached without an exception stores its block: after
   * line `j` the dictionary maps the block's `tmp_rev` to a record holding
   * the block's `tmp_hash`, and that key stays in the dictionary to the end.
   */
  lemma {:induction false} ShortstatBlockStored(lines: seq<string>, index: nat, st: LineState, info: RevInfo, j: nat)
    requires index <= j < |lines| && NoNewlines(lines)
    requires IsShortstat(Strip(lines[j]))
    requires LoopTo(lines, index, st, info, j + 1).error.None?
    ensures var l := LoopTo(lines, index, st, info, j + 1);
      && l.error.None? && l.st.deletion >= 0
      && l.st.rev in l.info.entries && l.info.entries[l.st.rev].hash == l.st.hash
      && l.st.rev in ParseFrom(lines, index, st, info).info.entries
    decreases j - index
  {
    var st1 := ParseLine(lines, index, StepStart(lines[index], st)).value;
    var info1 := if st1.deletion < 0 then info else Store(info, st1).info;
    if index == j {
      assert '\n' !in lines[index];
      assert st1.deletion >= 0;
      ParseFromGrows(lines, index + 1, st1, info1);
      assert st1.rev in info1.entries.Keys;
      assert st1.rev in ParseFrom(lines, index + 1, st1, info1).info.entries;
    } else if st1.deletion < 0 {
      ShortstatBlockStored(lines, index + 1, st1, info, j);
    } else {
      ShortstatBlockStored(lines, index + 1, st1, Store(info, st1).info, j);
    }
  }

  /** A log that parses without an exception reaches every line without one. */
  lemma {:induction false} ParseFromReaches(lines: seq<string>, index: nat, st: LineState, info: RevInfo, j: nat)
    requires index <= j < |lines| && NoNewlines(lines)
    requires ParseFrom(lines, index, st, info).error.None?
    ensures LoopTo(lines, index, st, info, j + 1).error.None?
    decreases j - index
  {
    var st1 := ParseLine(lines, index, StepStart(lines[index], st)).value;
    if index == j {
    } else if st1.deletion < 0 {
      ParseFromReaches(lines, index + 1, st1, info, j);
    } else {
      ParseFromReaches(lines, index + 1, st1, Store(info, st1).info, j);
    }
  }

  /** A line step without an exception sets the hash on a `commit` line and keeps it otherwise. */
  lemma LineHash(lines: seq<string>, m: nat, st: LineState)
    requires m < |lines| && NoNewlines(lines)
    requires ParseLine(lines, m, st).Ok?
    ensures ParseLine(lines, m, st).value.hash == (if StartsWith(lines[m], "commit ") then lines[m][7..] else st.hash)
  {
  }

  /** A line step without an exception on a line without a revision footer keeps `tmp_rev`. */
  lemma LineRev(lines: seq<string>, m: nat, st: LineState)
    requires m < |lines| && NoNewlines(lines)
    requires ParseLine(lines, m, st).Ok?
    requires FooterRevision(RepoFooter, Strip(lines[m])).None?
    ensures ParseLine(lines, m, st).value.rev == st.rev
  {
  }

  /** Line `m` starts a block: it starts with `commit `. */
  predicate CommitAt(lines: seq<string>, m: nat) {
    m < |lines| && StartsWith(lines[m], "commit ")
  }

  /** Line `m` is a shortstat line. */
  predicate ShortstatAt(lines: seq<string>, m: nat)
    requires NoNewlines(lines)
  {
    m < |lines| && IsShortstat(Strip(lines[m]))
  }

  /** Line `m` carries a revision footer. */
  predicate FooterAt(lines: seq<string>, m: nat)
    requires NoNewlines(lines)
  {
    m < |lines| && FooterRevision(RepoFooter, Strip(lines[m])).Some?
  }

  /** No line of `lines[lo..hi]` starts with `commit `. */
  predicate NoCommitIn(lines: seq<string>, lo: nat, hi: nat) {
    forall m: nat :: lo <= m < hi ==> !CommitAt(lines, m)
  }

  /** No line of `lines[lo..hi]` is a shortstat line. */
  predicate NoShortstatIn(lines: seq<string>, lo: nat, hi: nat)
    requires NoNewlines(lines)
  {
    forall m: nat :: lo <= m < hi ==> !ShortstatAt(lines, m)
  }

  /** No line of `lines[lo..hi]` carries a revision footer. */
  predicate NoFooterIn(lines: seq<string>, lo: nat, hi: nat)
    requires NoNewlines(lines)
  {
    forall m: nat :: lo <= m < hi ==> !FooterAt(lines, m)
  }

  /** Lines `index..j` without a `commit` line leave `tmp_hash` as it was. */
  lemma {:induction false} KeepHash(lines: seq<string>, index: nat, st: LineState, info: RevInfo, j: nat)
    requires index <= j < |lines| && NoNewlines(lines)
    requires NoCommitIn(lines, index, j + 1)
    requires ParseFrom(lines, index, st, info).error.None?
    ensures LoopTo(lines, index, st, info, j + 1).st.hash == st.hash
    decreases j - index
  {
    assert !CommitAt(lines, index);
    var st0 := StepStart(lines[index], st);
    var st1 := ParseLine(lines, index, st0).value;
    LineHash(lines, index, st0);
    if index == j {
    } else if st1.deletion < 0 {
      KeepHash(lines, index + 1, st1, info, j);
    } else {
      KeepHash(lines, index + 1, st1, Store(info, st1).info, j);
    }
  }

  /**
   * The loop carries the hash of a block's `commit` line `c` into every
   * line `j` of the block: `tmp_hash` after line `j` is the text after
   * `commit `.
   */
  lemma {:induction false} BlockHash(lines: seq<string>, index: nat, st: LineState, info: RevInfo, c: nat, j: nat)
    requires index <= c <= j < |lines| && NoNewlines(lines)
    requires CommitAt(lines, c) && NoCommitIn(lines, c + 1, j + 1)
    requires ParseFrom(lines, index, st, info).error.None?
    ensures LoopTo(lines, index, st, info, j + 1).st.hash == lines[c][7..]
    decreases c - index
  {
    var st0 := StepStart(lines[index], st);
    var st1 := ParseLine(lines, index, st0).value;
    if index == c {
      LineHash(lines, index, st0);
      if index == j {
      } else if st1.deletion < 0 {
        KeepHash(lines, index + 1, st1, info, j);
      } else {
        KeepHash(lines, index + 1, st1, Store(info, st1).info, j);
      }
    } else if st1.deletion < 0 {
      BlockHash(lines, index + 1, st1, info, c, j);
    } else {
      BlockHash(lines, index + 1, st1, Store(info, st1).info, c, j);
    }
  }

  /** Lines `index..j` without a revision footer leave `tmp_rev` at `FAKE_REV`. */
  lemma {:induction false} KeepFakeRev(lines: seq<string>, index: nat, st: LineState, info: RevInfo, j: nat)
    requires index <= j < |lines| && NoNewlines(lines)
    requires NoFooterIn(lines, index, j + 1) && st.rev == FAKE_REV
    requires ParseFrom(lines, index, st, info).error.None?
    ensures LoopTo(lines, index, st, info, j + 1).st.rev == FAKE_REV
    decreases j - index
  {
    var st0 := StepStart(lines[index], st);
    var st1 := ParseLine(lines, index, st0).value;
    assert !FooterAt(lines, index);
    LineRev(lines, index, st0);
    if index == j {
    } else if st1.deletion < 0 {
      KeepFakeRev(lines, index + 1, st1, info, j);
    } else {
      KeepFakeRev(lines, index + 1, st1, Store(info, st1).info, j);
    }
  }

  /**
   * A block whose lines from its `commit` line `c` up to line `j` carry no
   * revision footer is still under `FAKE_REV` after line `j`: stored at its
   * shortstat line, its record lands under `FAKE_REV`.
   */
  lemma {:induction false} BlockWithoutFooterKeepsFakeRev(lines: seq<string>, index: nat, st: LineState, info: RevInfo, c: nat, j: nat)
    requires index <= c <= j < |lines| && NoNewlines(lines)
    requires CommitAt(lines, c) && !FooterAt(lines, c) && NoFooterIn(lines, c + 1, j + 1)
    requires ParseFrom(lines, index, st, info).error.None?
    ensures LoopTo(lines, index, st, info, j + 1).st.rev == FAKE_REV
    decreases c - index
  {
    var st0 := StepStart(lines[index], st);
    var st1 := ParseLine(lines, index, st0).value;
    if index == c {
      LineRev(lines, index, st0);
      if index == j {
      } else if st1.deletion < 0 {
        KeepFakeRev(lines, index + 1, st1, info, j);
      } else {
        KeepFakeRev(lines, index + 1, st1, Store(info, st1).info, j);
      }
    } else if st1.deletion < 0 {
      BlockWithoutFooterKeepsFakeRev(lines, index + 1, st1, info, c, j);
    } else {
      BlockWithoutFooterKeepsFakeRev(lines, index + 1, st1, Store(info, st1).info, c, j);
    }
  }

  /** Lines `index..j` without a shortstat line, entered with a negative `tmp_deletion`, store nothing. */
  lemma {:induction false} KeepNothingStored(lines: seq<string>, index: nat, st: LineState, info: RevInfo, j: nat)
    requires index <= j < |lines| && NoNewlines(lines)
    requires NoShortstatIn(lines, index, j + 1) && st.deletion < 0
    requires ParseFrom(lines, index, st, info).error.None?
    ensures LoopTo(lines, index, st, info, j + 1).info == info
    ensures LoopTo(lines, index, st, info, j + 1).st.deletion < 0
    decreases j - index
  {
    var st1 := ParseLine(lines, index, StepStart(lines[index], st)).value;
    assert !ShortstatAt(lines, index);
    if index < j {
      KeepNothingStored(lines, index + 1, st1, info, j);
    }
  }

  /**
   * A block without a shortstat line is never stored: from its `commit`
   * line `c` up to line `j`, with no shortstat line in between, the
   * dictionary stays the one the loop carried into line `c`, whatever the
   * accumulators were.
   */
  lemma BlockWithoutShortstat(lines: seq<string>, c: nat, st: LineState, info: RevInfo, j: nat)
    requires c <= j < |lines| && NoNewlines(lines)
    requires CommitAt(lines, c) && NoShortstatIn(lines, c, j + 1)
    requires ParseFrom(lines, c, st, info).error.None?
    ensures LoopTo(lines, c, st, info, j + 1).info == info
  {
    KeepNothingStored(lines, c, Initial, info, j);
    assert StepStart(lines[c], st) == StepStart(lines[c], Initial);
  }

  /**
   * A block read from the start of the log, with a shortstat line `j`, no
   * other `commit` line and no revision footer between its `commit` line `c`
   * and `j`: after line `j` the dictionary maps `FAKE_REV` to a record with
   * the block's hash, and `FAKE_REV` is a key of the dictionary
   * `_parse_lines` returns.
   */
  lemma FooterlessBlockStored(lines: seq<string>, c: nat, j: nat)
    requires c <= j < |lines| && NoNewlines(lines)
    requires CommitAt(lines, c) && NoCommitIn(lines, c + 1, j + 1) && ShortstatAt(lines, j)
    requires !FooterAt(lines, c) && NoFooterIn(lines, c + 1, j + 1)
    requires ParseFrom(lines, 0, Initial, EmptyInfo).error.None?
    ensures var l := LoopTo(lines, 0, Initial, EmptyInfo, j + 1);
      && l.st.rev == FAKE_REV && l.st.hash == lines[c][7..]
      && FAKE_REV in l.info.entries && l.info.entries[FAKE_REV].hash == lines[c][7..]
      && FAKE_REV in ParseFrom(lines, 0, Initial, EmptyInfo).info.entries
  {
    ParseFromReaches(lines, 0, Initial, EmptyInfo, j);
    ShortstatBlockStored(lines, 0, Initial, EmptyInfo, j);
    BlockHash(lines, 0, Initial, EmptyInfo, c, j);
    BlockWithoutFooterKeepsFakeRev(lines, 0, Initial, EmptyInfo, c, j);
  }

  /**
   * `_get_head_rev`: parse the output of a one-commit log into a fresh
   * dictionary and return its first key, or None when nothing was stored.
   */
  method HeadRev(out: string) returns (r: Result<Option<int>, ParseError>)
    ensures var p := ParseFrom(Split(out, '\n'), 0, Initial, EmptyInfo);
      && (p.error.Some? <==> r.Err?)
      && (r.Err? ==> r.error == p.error.value)
      && (r.Ok? ==> (r.value.None? <==> p.info.entries == map[]))
      && (r.Ok? && r.value.Some? ==>
            r.value.value in p.info.entries && |p.info.order| > 0 && r.value.value == p.info.order[0])
  {
    var lines := Split(out, '\n');
    var info, error := ParseLines(lines, EmptyInfo);
    assert ValidInfo(EmptyInfo);
    ParseFromGrows(lines, 0, Initial, EmptyInfo);
    if error.Some? {
      return Err(error.value);
    }
    FirstKeyStored(info);
    if |info.order| == 0 {
      return Ok(None);
    }
    return Ok(Some(info.order[0]));
  }
}
