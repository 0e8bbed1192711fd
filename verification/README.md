# Chromium revision cache and build utilities, in Dafny

This project models the core of `base.py`, the shared helper module of a
set of Chromium build and test scripts, and proves properties of that model.

It covers two parts of the module:

- **`ChromiumRepo`**, which turns Chromium commit positions (revision
  numbers) into git hashes. It reads `git log --shortstat` output line by
  line (`_parse_line`, and the near-copy `Util.parse_git_line`), assembles
  one record per commit block (`_parse_lines`) and keeps the records in a
  dictionary. Beside the dictionary it keeps a window `[min, max]` of
  revisions whose logs have been read (`get_info`, `_get_info`). A hash is
  looked up in that dictionary (`get_hash_from_rev`), and the head
  revision of a branch is the first key a one-commit log produces
  (`_get_head_rev`).
- **Pure helpers of `Util`**: dotted version comparison (`cmp_ver`), the
  Intel GPU series and generation tables, the build output directory name,
  slash direction, MSYS drive prefixes, the paths that need root, and the
  list logic of `prepend_path` and `remove_path`.

The modules are:

| module | contents |
|---|---|
| `Wrappers` | `Option` and `Result` |
| `Text` | Python string operations: `str.isspace`, `split`, `join`, `replace`, `strip`, `lower`, `int()` and `'%s' % n` |
| `LogPatterns` | each regular expression the line step uses, written as the match Python's `re` finds (anchoring, leftmost start, greedy backtracking), with a lemma stating that match |
| `CommitLog` | the line step, the block loop with its dictionary, and the head-revision reader |
| `RevisionCache` | the class `ChromiumRepo`, with the window, the records and the plan of fetches |
| `Versions` | `cmp_ver` |
| `IntelGpu` | the series and generation tables |
| `BuildPaths` | `cal_relative_out_dir`, `format_slash`, `use_drive` and `need_sudo` |
| `EnvPath` | `prepend_path` and `remove_path` |

How the model maps Python onto Dafny:

- Exceptions become error results. The IndexError of a `Date:` line with
  no subject line is `SubjectMissing`. The ValueError of `int()` is
  `BadRevision` or `BadComponent`. The AttributeError of a roll subject
  that no longer matches is `RollSubjectMismatch`. `Util.error`, which
  ends the program, is `NotReady`, and the KeyError of a missing revision
  is `MissingRevision`.
- The dictionary is changed in place, so the writes made before an
  exception stay in the model too.
- The dictionary keeps its insertion order (`RevInfo.order`), because
  `_get_head_rev` returns the first key.
- The class invariant `Valid` says that the records form a well-formed
  insertion-ordered dictionary. The constructor establishes it and every
  method keeps it.
- The class keeps a ghost list of the spans whose logs it has read. It
  serves one purpose: to state that no revision is ever fetched twice.

A stored record is `[hash, roll_repo, roll_hash, roll_count]`
(base.py:1651-1656), and `roll_hash` is group 3 of the roll pattern, the
"to" hash (base.py:1700-1702). A shortstat line is recognised only when it
starts with `N file(s) changed` (base.py:1717).

## Model

| member | source | states |
|---|---|---|
| LogPatterns.CommitHash | base.py:1674-1676 | matches exactly the lines starting with `commit `, and the hash is the rest of the line |
| LogPatterns.DateText | base.py:1695-1697 | matches exactly the lines starting with `Date:`, and the group is the rest of the line |
| LogPatterns.SvnRevisionText | base.py:1707-1709 | matches when the svn footer prefix matches (its dots are wildcards) and a space follows; the group runs up to the last space, as greedy `(.*)` makes it |
| LogPatterns.CrHeadOf | base.py:1713 | finds the footer head the line starts with; `main` is always accepted, `master` only in the `_parse_line` flavour, and at most one head can match |
| LogPatterns.CrRevisionText | base.py:1713-1715 | matches exactly when a footer head is followed somewhere by `}`; the revision group runs up to the last `}` |
| LogPatterns.CrFlavoursAgree | base.py:649-651 | the `main`-only pattern and the `main\|master` pattern read the same revision from every line that is not a `master` footer |
| LogPatterns.ShortstatSpec | base.py:1717 | the shortstat test holds exactly when a non-empty digit run is followed by ` file changed` or ` files changed` |
| LogPatterns.FirstCountAt | base.py:1718-1728 | the index returned is the leftmost at which the count pattern matches |
| LogPatterns.SearchCount | base.py:1718-1728 | no value exactly when the count pattern matches nowhere; otherwise the value of the digits at the leftmost match |
| LogPatterns.AngleCaptureSpec | base.py:1681-1683 | fails exactly when no `<`, `@`, `@`, `>` occur in that order; otherwise captures from the first `<` to the last `@` before the last `>` |
| LogPatterns.EmailTokenSpec | base.py:1685-1687 | fails exactly when no `@` has a non-space character on each side; otherwise returns the whole whitespace-delimited word around the first such `@` |
| LogPatterns.LastRollA | base.py:1700 | returns the match with the longest group 1 and, for it, the longest group 2 |
| LogPatterns.RollMatchSpec | base.py:1700-1702 | fails exactly when the roll pattern matches nowhere; otherwise returns the match greedy backtracking finds first |
| LogPatterns.RollAtParses | base.py:1653-1656 | a match reassembles the subject: `Roll `, repo, space, two alphanumeric hashes and the digits of the commit count |
| CommitLog.ExtractAuthor | base.py:1679-1692 | the author is the angle-bracket capture when `<(.*@.*)@.*>` matches, else the first email token with its leading `<`s and trailing `>`s stripped, and on both paths contains `@` and is a slice of the line; on the fallback it is stripped |
| CommitLog.AuthorFromToken | base.py:1685-1689 | stripping `<` and `>` from the email token keeps its `@` and leaves a slice of the line |
| CommitLog.FootersExclusive | base.py:1707-1715 | no line matches both the svn and the Cr-Commit-Position footer |
| CommitLog.HeaderStep | base.py:1671-1702 | fails exactly on a `Date:` line with no line two below; sets the hash, author, date and subject from their lines; sets the roll flag exactly for a roll subject of a repository other than `src-internal`; leaves the other accumulators alone |
| CommitLog.FooterStep | base.py:1704-1728 | fails exactly when a footer's revision text is not an integer; sets the revision from the footer; sets both counts, 0 when a clause is absent, exactly on a shortstat line; changes nothing else |
| CommitLog.ParseLineWith | base.py:1658-1730 | fails exactly on a missing subject line or an unparsable footer revision; is the header steps followed by the footer steps; `tmp_deletion` becomes non-negative exactly on a shortstat line |
| CommitLog.LineStepsAgree | base.py:604-666 | `Util.parse_git_line` and `_parse_line` give the same result on every line except a `refs/heads/master` footer |
| CommitLog.MasterFooterOnlyInRepoStep | base.py:1713-1715 | on `Cr-Commit-Position: refs/heads/master@{#349370}`, `_parse_line` reads 349370 and `parse_git_line` reads nothing |
| CommitLog.MasterFooterLine | base.py:1713-1715 | what the svn and both Cr footer patterns make of that `master` footer line |
| CommitLog.CommitLineSetsHash | base.py:1671-1730 | a `commit` line changes only the hash |
| CommitLog.FirstKeyStored | base.py:1737-1738 | the dictionary is empty exactly when its order is, and the first key in the order is stored |
| CommitLog.Put | base.py:1651 | the entry is written; a new key goes last in the order and the first key stays first |
| CommitLog.Store | base.py:1650-1656 | adds exactly the key `tmp_rev` and keeps every other entry; the record under `tmp_rev` holds `tmp_hash`; writes the plain record, or for a roll the record with groups 1, 3 and 4; fails exactly when the roll flag is set and the subject does not match |
| CommitLog.StoreIdempotent | base.py:1650-1656 | writing the same block state twice is writing it once |
| CommitLog.ParseLines | base.py:1609-1656 | the loop with its eight accumulators leaves the dictionary and error that the recursive definition `ParseFrom` gives |
| CommitLog.ParseTurn | base.py:1617-1656 | one turn of the loop: a `commit` line resets the accumulators, the line step runs, a block with a shortstat is stored; the loop from this line on is this turn followed by the loop from the next line, or stops with this turn's error |
| CommitLog.ParseFromGrows | base.py:1609-1656 | keys once stored stay stored, the dictionary stays well formed, and the first key stays first |
| CommitLog.NoShortstatStoresNothing | base.py:1650-1651 | without a shortstat line nothing is stored |
| CommitLog.StoredKeysFromFooters | base.py:1614-1651 | every key added is `FAKE_REV` or a revision some footer line carries |
| CommitLog.FooterlessBlocksUnderFakeRev | base.py:1614-1651 | with no footer lines, every stored block lands under `FAKE_REV` |
| CommitLog.ParseFromReaches | base.py:1614-1651 | a log that parses without an exception reaches every line without one |
| CommitLog.ShortstatBlockStored | base.py:1614-1651 | after a shortstat line `j` reached without error, the `tmp_rev` the loop carries is a key whose record holds the `tmp_hash` it carries, and that key is in the final dictionary |
| CommitLog.KeepHash | base.py:1617-1626 | lines without a `commit` line leave `tmp_hash` as it was |
| CommitLog.BlockHash | base.py:1617-1626 | every line `j` of a block carries the hash of the block's `commit` line |
| CommitLog.KeepFakeRev | base.py:1704-1715 | lines without a revision footer leave `tmp_rev` at `FAKE_REV` |
| CommitLog.BlockWithoutFooterKeepsFakeRev | base.py:1614-1651 | with no footer between a block's `commit` line and line `j`, `tmp_rev` after line `j` is `FAKE_REV` |
| CommitLog.KeepNothingStored | base.py:1650-1651 | lines without a shortstat line, entered with a negative `tmp_deletion`, leave the dictionary unchanged |
| CommitLog.BlockWithoutShortstat | base.py:1617-1651 | a block with no shortstat line from its `commit` line to line `j` adds nothing to the dictionary, whatever the accumulators were |
| CommitLog.FooterlessBlockStored | base.py:1614-1651 | a footerless block with a shortstat line `j`: after line `j` its record with its hash is under `FAKE_REV`, and `FAKE_REV` is a key of the final dictionary |
| CommitLog.HeadRev | base.py:1732-1738 | fails exactly when parsing fails; returns nothing exactly when nothing was stored, and otherwise the first key inserted |
| RevisionCache.RangeQuerySelects | base.py:1594-1602 | the git range `~(head-lo+1)..~(head-hi)` selects exactly the revisions `lo..hi`, and names an ancestor of the head exactly when `hi <= head` |
| RevisionCache.SpanLines | base.py:1603-1604 | the lines of the log hold no newline |
| RevisionCache.FetchOutcome | base.py:1592-1607 | a fetch succeeds only for a span that ends by the head |
| RevisionCache.PlanNothingToDo | base.py:1571-1578 | an empty or already covered request fetches nothing and keeps the window |
| RevisionCache.PlanOnEmptyCache | base.py:1580-1583 | on the empty cache the request is fetched in one piece and becomes the window |
| RevisionCache.PlanAvoidsWindow | base.py:1584-1590 | every span fetched is non-empty and outside the old window, and the new window is the smallest one holding the old window and the request |
| RevisionCache.PlanIdempotent | base.py:1570-1590 | asking again for the same range fetches nothing |
| RevisionCache.PlanKeepsTiling | base.py:1570-1590 | fetching the plan keeps the spans read so far a tiling of the window, so no revision is read twice |
| RevisionCache.RunPlan | base.py:1580-1590 | a run of fetches stops only with NotReady or a parse failure |
| RevisionCache.RunPlanAppend | base.py:1584-1590 | running two plans in turn is running their concatenation, the second only when the first succeeds |
| RevisionCache.RunPlanTwo | base.py:1585-1590 | a two-span plan is the lower fetch and then, if it succeeds, the upper fetch |
| RevisionCache.RunPlanReadsAll | base.py:1592-1596 | a run without error has read every span of the plan, and each ends by the head |
| RevisionCache.RunPlanKeeps | base.py:1606-1607 | a run only adds keys and keeps the dictionary well formed |
| RevisionCache.ChromiumRepo.constructor | base.py:1545-1547 | both bounds start at `FAKE_REV`, with no records and nothing read; the class invariant (well-formed records) holds |
| RevisionCache.ChromiumRepo.FetchSpan | base.py:1592-1607 | a span after the head stops with NotReady and reads nothing; otherwise its log is parsed into the records and the span is read; the bounds stay and the records stay well formed |
| RevisionCache.ChromiumRepo.GetInfo | base.py:1570-1590 | the records are the run of the plan; on success the window is widened; on error the upper bound is kept and the lower bound is `min_rev` exactly when the lower fetch was needed and succeeded; the records stay well formed; the tiling invariant is kept |
| RevisionCache.ChromiumRepo.Extend | base.py:1584-1590 | the lower then the upper fetch; on error the upper bound is kept and the lower bound is `min_rev` exactly when the lower fetch was needed and succeeded |
| RevisionCache.ChromiumRepo.GetHashFromRev | base.py:1564-1567 | a stored revision is answered without reading any log; an absent revision inside the window is MissingRevision without reading; otherwise the records and spans read are those of the plan's run and its error is returned, and after a successful run the result is the stored hash when `rev` is now a key and MissingRevision otherwise, with the window widened to hold `rev`; the window is kept when nothing is fetched; the records stay well formed and the tiling invariant is kept |
| Versions.ParseComponents | base.py:473-474 | parses every piece with `int()`, or fails on the first piece `int()` refuses |
| Versions.ParseVersion | base.py:473-474 | a parsed version has one component per `.`-separated piece |
| Versions.CompareFrom | base.py:489-496 | the result is 1, 0 or -1 |
| Versions.CompareFromMeaning | base.py:476-496 | 0 exactly when all components agree, with missing ones read as 0; otherwise 1 or -1 by the first component that differs |
| Versions.CompareZeroMeansEqual | base.py:476-496 | equal exactly when every component agrees after zero padding |
| Versions.CompareReflexive | base.py:489-496 | every version equals itself |
| Versions.CompareAntisymmetric | base.py:489-496 | swapping the arguments flips the sign |
| Versions.ZeroPaddingIrrelevant | base.py:476-487 | trailing zero components change nothing |
| Versions.OneTwoEqualsOneTwoZero | base.py:472-496 | "1.2" and "1.2.0" parse to [1, 2] and [1, 2, 0], which compare equal |
| Versions.CmpVer | base.py:472-496 | fails with the first unparsable component of the first version, then of the second; otherwise returns the comparison of the parsed versions |
| IntelGpu.DropLastTwo | base.py:1133 | `[:-2]` drops the last two characters, and keeps nothing of a shorter id |
| IntelGpu.MaskedId | base.py:1132-1133 | the masked id ends in `00` and is as long as the id, or 2 for shorter ids |
| IntelGpu.SeriesOf | base.py:1134-1222 | every series the table returns is named in the generation table |
| IntelGpu.SeriesTypeAsWritten | base.py:1131-1222 | the series table as written returns only series the generation table knows |
| IntelGpu.SeriesType | base.py:1131-1222 | the corrected series table returns only series the generation table knows |
| IntelGpu.GenerationOf | base.py:1225-1254 | a generation exists exactly for a known series name, and lies between 4 and 12 |
| IntelGpu.GenerationAsWritten | base.py:1224-1254 | on the series table as written, a generation exists exactly when a series does, and lies between 4 and 12 |
| IntelGpu.Generation | base.py:1224-1254 | the corrected generation is the generation as written of the lower-case id, so the two agree on lower-case ids |
| IntelGpu.GenerationIffSeries | base.py:1225-1254 | a device id has a generation exactly when it has a series |
| IntelGpu.SeriesTypeIgnoresCase | base.py:1132-1133 | the corrected series does not depend on the case of the hex digits |
| IntelGpu.SeriesByMaskedId | base.py:1134-1222 | outside the seven split families, ids with the same masked id have the same series |
| IntelGpu.Family0a00 | base.py:1194-1198 | the 0x0a00 family is apollolake for the probed id `0x0a84`, haswell otherwise |
| IntelGpu.AsWrittenAgreesOnLowerCase | base.py:1194-1198 | on lower-case ids the table as written and the corrected one agree |
| IntelGpu.AsWrittenDependsOnCase | base.py:1194-1198 | `0x0A84` is haswell (generation 7) as written but apollolake (generation 9) when corrected |
| BuildPaths.RelativeOutDir | base.py:587-601 | the name starts with `out-<arch>-<os>-symbol` |
| BuildPaths.DcheckSuffixReadable | base.py:597-600 | the dcheck suffix can be read back off the name |
| BuildPaths.ComponentSuffixReadable | base.py:592-595 | the component suffix can be read back off the name |
| BuildPaths.RelativeOutDirInjective | base.py:587-601 | for one architecture and OS, the name determines the symbol level and both flags |
| BuildPaths.FormatSlash | base.py:575-579 | same length; on Windows each `/` becomes `\`, elsewhere each `\` becomes `/`; every other character is kept |
| BuildPaths.FormatSlashUniform | base.py:575-579 | afterwards only the platform's separator is left |
| BuildPaths.FormatSlashIdempotent | base.py:575-579 | formatting twice is formatting once |
| BuildPaths.FormatSlashRoundTrip | base.py:575-579 | a path without backslashes survives a round trip through the Windows form |
| BuildPaths.DriveOf | base.py:868 | matches exactly a path starting `/x/`, with x not a newline |
| BuildPaths.UseDriveAsWritten | base.py:867-872 | same length; a path with a drive starts with `X:/`; any other path is unchanged |
| BuildPaths.UseDrive | base.py:867-872 | the leading `/x/` becomes `X:/` and the rest is kept; other paths are unchanged |
| BuildPaths.UseDriveAgrees | base.py:867-872 | as written and corrected agree when `/x/` does not occur again |
| BuildPaths.UseDriveRewritesInnerSegment | base.py:871 | `/c/a/c/b` becomes `C:/aC:/b` as written, `C:/a/c/b` corrected |
| BuildPaths.MatchesAny | base.py:896-900 | true exactly when the path starts with one of the prefixes |
| BuildPaths.NeedSudo | base.py:894-900 | true exactly for paths starting with `chroot/sbin`, `/var` or `/etc` |
| BuildPaths.NeedSudoIsPrefixTest | base.py:894-900 | the test is a string prefix: `/variable` needs root, `/home/etc` does not |
| EnvPath.AppendMissing | base.py:409-411 | the list built so far stays a prefix of the result |
| EnvPath.AppendMissingMembers | base.py:409-411 | the result holds exactly the entries of both lists |
| EnvPath.AppendMissingAddsNoDuplicates | base.py:409-411 | every appended entry appears nowhere before itself |
| EnvPath.PrependedShape | base.py:405-413 | the new entries come first as given, the result holds exactly the entries of both lists, and no old entry is added twice |
| EnvPath.PrependedIdempotent | base.py:405-413 | prepending the same entries twice is prepending them once |
| EnvPath.PrependPath | base.py:405-413 | the loop over the split PATH leaves the joined `Prepended` list |
| EnvPath.RemoveFirst | base.py:420 | `list.remove` shortens the list by one |
| EnvPath.Without | base.py:415-422 | the path is absent, every other entry is kept, and the list does not grow |
| EnvPath.RemoveWhileIteratingKeepsOthers | base.py:418-420 | the loop as written keeps every other entry in order; it only misses copies of the path |
| EnvPath.AdjacentCopySurvives | base.py:418-420 | on `["a", "a"]` the loop as written leaves `["a"]` |
| EnvPath.RemovePathAsWritten | base.py:415-422 | the loop removing while iterating leaves the joined `RemoveWhileIterating` list |
| EnvPath.WithoutIdempotent | base.py:415-422 | removing twice is removing once |
| EnvPath.WithoutAbsent | base.py:415-422 | a PATH without the entry is left as it is |
| EnvPath.RemovePath | base.py:415-422 | the loop leaves the joined `Without` list: every copy of the path is gone and the other entries stay in order |

## Left out

- The shell and the environment are not modelled. `Util.execute` is the
  parameter `log`, and `get_repo_rev` is the parameter `head`. `get_env`
  and `set_env` become the PATH string that `PrependPath` and `RemovePath`
  take and return. `sys.platform` is the flag `isWin32`, and
  `Util.ENV_SPLITTER` is the parameter `sep`.
- The head revision is one value for a whole `get_info` call. The source
  asks git again in each `_get_info` call.
- The model does not cover `get_repo_rev` returning None (a log with no
  stored block): `head` is always an integer.
- Log messages are not modelled: `Util.warning` on an abnormal author line,
  and the message `Util.error` prints before it ends the program.
- `lower()`, `capitalize()`, `\d` and the digits `int()` accepts are
  modelled on ASCII characters: other letters and digits are left as they
  are. Whitespace (`Text.IsSpace`, used by `strip()`, by the stripping
  `int()` does, and by `\S`) is the full set of Python's `str.isspace`,
  including U+0085, U+00A0, U+2000 to U+200A and U+3000.
- The records are values. The source writes slots of a stored list one at
  a time; the model replaces the whole record, which gives the same final
  value.
- `RevisionCache.RangeQuerySelects`: the ancestry of git is not modelled.
  The lemma assumes that the `n`-th first-parent ancestor of the head
  carries revision `head - n`, which holds for a linear history of
  commit positions.
- `CommitLog.ShortstatBlockStored`: the record's hash is stated for the
  dictionary right after line `j`. A later block with the same `tmp_rev`
  overwrites it (every footerless block lands under `FAKE_REV`), so for
  the final dictionary only the key is stated.
- `RevisionCache.PlanKeepsTiling`: the no-re-fetch invariant is proved only
  for calls that succeed and ask for revisions below `FAKE_REV`. A
  revision of `FAKE_REV` or above collides with the empty-cache marker.
- `CommitLog.ExtractAuthor`: on the fallback path (no email in the line),
  the ensures states only that the author is stripped, not which text
  remains.
- `BuildPaths.RelativeOutDir`: `symbol_level` is modelled as an integer.
  The source formats whatever value it is given with `'%s'`.

## Findings

| source | as written | input that shows it | evidently intended | confidence | as-written member | corrected member |
|---|---|---|---|---|---|---|
| base.py:418-420 | `remove_path` removes from the list it is iterating over, so the entry after each removed one is skipped | PATH `a:a` with path `a` leaves `a` | every copy of `path` leaves PATH | high, not executed | EnvPath.AdjacentCopySurvives | EnvPath.RemovePath |
| base.py:1196 | the 0x0a00 family compares the id as given, not its lower-case form, with `0x0a84` | `0x0A84` gives haswell and generation 7; `0x0a84` gives apollolake and generation 9 | the comparison uses the lower-case id like every other one | high, not executed | IntelGpu.AsWrittenDependsOnCase | IntelGpu.SeriesType |
| base.py:871 | `use_drive` replaces every `/x/` in the path, not only the leading one | `/c/a/c/b` becomes `C:/aC:/b` | only the leading `/c/` becomes `C:/`, giving `C:/a/c/b` | medium, not executed | BuildPaths.UseDriveRewritesInnerSegment | BuildPaths.UseDrive |
