/**
 * The revision cache of `ChromiumRepo` in base.py: a window
 * `[knownMin, knownMax]` of revisions whose commit logs have been read, and
 * the dictionary of records those logs produced. A request for a range
 * fetches only the parts outside the window and widens it.
 *
 * The head revision of the branch (`get_repo_rev`, a shell command) and the
 * output of `git log` for a range (`Util.execute`) are parameters: `head`
 * and the function `log`. `Util.error`, which ends the program, becomes the
 * error NotReady; a `KeyError` becomes MissingRevision.
 */
module RevisionCache {
  import opened Wrappers
  import opened Text
  import opened CommitLog

  /** An inclusive range of revisions `[lo, hi]`. */
  datatype Span = Span(lo: int, hi: int)

  predicate Covers(s: Span, r: int) {
    s.lo <= r <= s.hi
  }

  /** Some span of `spans` covers `r`. */
  predicate AnyCovers(spans: seq<Span>, r: int) {
    exists i :: 0 <= i < |spans| && Covers(spans[i], r)
  }

  datatype CacheError =
    | NotReady(rev: int)          // `Util.error('Revision %s is not ready')`, which ends the program
    | ParseFailed(e: ParseError)  // an exception raised while parsing the log
    | MissingRevision(rev: int)   // `KeyError`: the revision is not in the dictionary

  // ---------------------------------------------------------------- the git range of `_get_info`

  /** `git log --shortstat origin/<branch>~<fromBack>..origin/<branch>~<toBack>`. */
  datatype LogQuery = LogQuery(branch: string, fromBack: int, toBack: int)

  /** The range `_get_info(lo, hi)` asks git for, counted back from the head revision. */
  function RangeQuery(branch: string, head: int, lo: int, hi: int): LogQuery {
    LogQuery(branch, head - lo + 1, head - hi)
  }

  /**
   * On a first-parent history where `origin/<branch>~k` has revision
   * `head - k`, the range `A..B` lists the revisions reachable from B and
   * not from A: those after `head - fromBack` up to `head - toBack`.
   */
  predicate Selected(head: int, q: LogQuery, r: int) {
    head - q.fromBack < r <= head - q.toBack
  }

  /**
   * The range asked for by `_get_info(lo, hi)` selects exactly the revisions
   * `lo..hi`, `hi - lo + 1` first-parent steps that end at `hi`, and it
   * names an ancestor of the head (`toBack >= 0`) exactly when `hi <= head`,
   * the check `_get_info` makes before running git.
   */
  lemma RangeQuerySelects(branch: string, head: int, lo: int, hi: int)
    ensures var q := RangeQuery(branch, head, lo, hi);
      && (forall r :: Selected(head, q, r) <==> lo <= r <= hi)
      && q.fromBack - q.toBack == hi - lo + 1
      && (q.toBack >= 0 <==> hi <= head)
      && q.branch == branch
  {
  }

  /** The lines `_get_info` parses for a span: the log output split at newlines. */
  function SpanLines(branch: string, head: int, s: Span, log: LogQuery -> string): (lines: seq<string>)
    ensures NoNewlines(lines)
  {
    Split(log(RangeQuery(branch, head, s.lo, s.hi)), '\n')
  }

  /** What one `_get_info` call leaves: the dictionary, and the error that stopped it, if any. */
  datatype Fetch = Fetch(info: RevInfo, error: Option<CacheError>)

  /**
   * `_get_info(s.lo, s.hi)` on the dictionary `info`, as a value: NotReady
   * when the span ends after the head, else the parse of the span's log
   * into `info`, with the writes made before a parse error kept.
   */
  function FetchOutcome(info: RevInfo, s: Span, branch: string, head: int, log: LogQuery -> string): (f: Fetch)
    ensures f.error.None? ==> s.hi <= head
  {
    if s.hi > head then Fetch(info, Some(NotReady(s.hi)))
    else
      var p := ParseFrom(SpanLines(branch, head, s, log), 0, Initial, info);
      Fetch(p.info, if p.error.Some? then Some(ParseFailed(p.error.value)) else None)
  }

  // ---------------------------------------------------------------- the plan of `get_info`

  /** The request lies inside the known window. */
  predicate Contained(kMin: int, kMax: int, minRev: int, maxRev: int) {
    kMin <= minRev && kMax >= maxRev
  }

  /** The spans `get_info(minRev, maxRev)` fetches, in order, from the window `[kMin, kMax]`. */
  function Plan(kMin: int, kMax: int, minRev: int, maxRev: int): seq<Span> {
    if minRev > maxRev || Contained(kMin, kMax, minRev, maxRev) then []
    else if kMin == FAKE_REV then [Span(minRev, maxRev)]
    else
      (if minRev < kMin then [Span(minRev, kMin - 1)] else [])
      + (if maxRev > kMax then [Span(kMax + 1, maxRev)] else [])
  }

  /** The window after `get_info(minRev, maxRev)` has fetched every span of its plan. */
  function Widen(kMin: int, kMax: int, minRev: int, maxRev: int): Span {
    if minRev > maxRev || Contained(kMin, kMax, minRev, maxRev) then Span(kMin, kMax)
    else if kMin == FAKE_REV then Span(minRev, maxRev)
    else Span(if minRev < kMin then minRev else kMin, if maxRev > kMax then maxRev else kMax)
  }

  /** An empty or already covered request fetches nothing and leaves the window as it is. */
  lemma PlanNothingToDo(kMin: int, kMax: int, minRev: int, maxRev: int)
    requires minRev > maxRev || Contained(kMin, kMax, minRev, maxRev)
    ensures Plan(kMin, kMax, minRev, maxRev) == []
    ensures Widen(kMin, kMax, minRev, maxRev) == Span(kMin, kMax)
  {
  }

  /** On the empty cache a request is fetched in one piece and becomes the window. */
  lemma PlanOnEmptyCache(minRev: int, maxRev: int)
    requires minRev <= maxRev && maxRev < FAKE_REV
    ensures Plan(FAKE_REV, FAKE_REV, minRev, maxRev) == [Span(minRev, maxRev)]
    ensures Widen(FAKE_REV, FAKE_REV, minRev, maxRev) == Span(minRev, maxRev)
  {
  }

  /**
   * On a non-empty cache every fetched span is non-empty and lies outside
   * the old window, and the new window is the smallest one holding both the
   * old window and the request.
   */
  lemma PlanAvoidsWindow(kMin: int, kMax: int, minRev: int, maxRev: int)
    requires kMin != FAKE_REV && kMin <= kMax && minRev <= maxRev
    ensures forall s :: s in Plan(kMin, kMax, minRev, maxRev) ==> s.lo <= s.hi && (s.hi < kMin || s.lo > kMax)
    ensures Widen(kMin, kMax, minRev, maxRev) ==
              Span(if minRev < kMin then minRev else kMin, if maxRev > kMax then maxRev else kMax)
  {
  }

  /** Asking again for the same range, from the widened window, fetches nothing. */
  lemma PlanIdempotent(kMin: int, kMax: int, minRev: int, maxRev: int)
    ensures var w := Widen(kMin, kMax, minRev, maxRev);
      Plan(w.lo, w.hi, minRev, maxRev) == [] && Widen(w.lo, w.hi, minRev, maxRev) == w
  {
  }

  /**
   * The spans fetched so far tile the window: they are non-empty, pairwise
   * disjoint and cover exactly `[kMin, kMax]`; the empty cache has fetched
   * nothing.
   */
  ghost predicate Tiled(kMin: int, kMax: int, fetched: seq<Span>) {
    if kMin == FAKE_REV then kMax == FAKE_REV && fetched == []
    else
      && kMin <= kMax < FAKE_REV
      && (forall i :: 0 <= i < |fetched| ==> fetched[i].lo <= fetched[i].hi)
      && (forall i, j, r :: 0 <= i < j < |fetched| && Covers(fetched[i], r) ==> !Covers(fetched[j], r))
      && (forall r :: kMin <= r <= kMax <==> AnyCovers(fetched, r))
  }

  /** A revision is covered by a concatenation exactly when it is covered by one of its parts. */
  lemma AnyCoversAppend(a: seq<Span>, b: seq<Span>, r: int)
    ensures AnyCovers(a + b, r) <==> AnyCovers(a, r) || AnyCovers(b, r)
  {
    if AnyCovers(a + b, r) {
      var i :| 0 <= i < |a + b| && Covers((a + b)[i], r);
      if i >= |a| {
        assert Covers(b[i - |a|], r);
      }
    }
    if AnyCovers(a, r) {
      var i :| 0 <= i < |a| && Covers(a[i], r);
      assert Covers((a + b)[i], r);
    }
    if AnyCovers(b, r) {
      var i :| 0 <= i < |b| && Covers(b[i], r);
      assert Covers((a + b)[|a| + i], r);
    }
  }

  /**
   * No re-fetch: for requests below `FAKE_REV`, fetching the plan keeps the
   * fetched spans a tiling of the window, so no revision is ever fetched twice.
   */
  lemma {:induction false} PlanKeepsTiling(kMin: int, kMax: int, fetched: seq<Span>, minRev: int, maxRev: int)
    requires Tiled(kMin, kMax, fetched)
    requires minRev > maxRev || maxRev < FAKE_REV
    ensures var w := Widen(kMin, kMax, minRev, maxRev);
      Tiled(w.lo, w.hi, fetched + Plan(kMin, kMax, minRev, maxRev))
  {
    var plan := Plan(kMin, kMax, minRev, maxRev);
    var w := Widen(kMin, kMax, minRev, maxRev);
    var a, b := w.lo, w.hi;
    if minRev > maxRev || Contained(kMin, kMax, minRev, maxRev) {
      assert fetched + plan == fetched;
    } else if kMin == FAKE_REV {
      assert fetched + plan == [Span(minRev, maxRev)];
      forall r ensures minRev <= r <= maxRev <==> AnyCovers([Span(minRev, maxRev)], r) {
        if minRev <= r <= maxRev {
          assert Covers([Span(minRev, maxRev)][0], r);
        }
      }
    } else {
      var all := fetched + plan;
      PlanAvoidsWindow(kMin, kMax, minRev, maxRev);
      forall i | 0 <= i < |all| ensures all[i].lo <= all[i].hi {
        if i >= |fetched| {
          assert all[i] == plan[i - |fetched|];
          assert all[i] in plan;
        }
      }
      forall i, j, r | 0 <= i < j < |all| && Covers(all[i], r) ensures !Covers(all[j], r) {
        if j >= |fetched| {
          var s := plan[j - |fetched|];
          assert all[j] == s;
          assert s in plan;
          if i < |fetched| {
            assert AnyCovers(fetched, r) by { assert all[i] == fetched[i]; }
          } else {
            assert all[i] == plan[i - |fetched|];
          }
        } else {
          assert all[i] == fetched[i] && all[j] == fetched[j];
        }
      }
      forall r ensures a <= r <= b <==> AnyCovers(all, r) {
        AnyCoversAppend(fetched, plan, r);
        if a <= r <= b && !(kMin <= r <= kMax) {
          if r < kMin {
            assert Covers(plan[0], r);
          } else {
            assert Covers(plan[|plan| - 1], r);
          }
        }
        if AnyCovers(plan, r) {
          var i :| 0 <= i < |plan| && Covers(plan[i], r);
          assert plan[i] in plan;
        }
      }
    }
  }

  /**
   * The fetches of a plan, one after the other, as a value: the dictionary,
   * the spans whose log was read, and the error that stopped the run.
   */
  datatype Run = Run(info: RevInfo, done: seq<Span>, error: Option<CacheError>)

  function RunPlan(info: RevInfo, plan: seq<Span>, branch: string, head: int, log: LogQuery -> string): (r: Run)
    ensures r.error.Some? ==> r.error.value.NotReady? || r.error.value.ParseFailed?
    decreases |plan|
  {
    if plan == [] then Run(info, [], None)
    else
      var f := FetchOutcome(info, plan[0], branch, head, log);
      var first: seq<Span> := if plan[0].hi > head then [] else [plan[0]];
      if f.error.Some? then Run(f.info, first, f.error)
      else
        var r := RunPlan(f.info, plan[1..], branch, head, log);
        Run(r.info, first + r.done, r.error)
  }

  /**
   * Running `p + q` is running `p` and, unless that fails, running `q` from
   * the dictionary `p` left.
   */
  lemma {:induction false} RunPlanAppend(info: RevInfo, p: seq<Span>, q: seq<Span>, branch: string, head: int, log: LogQuery -> string)
    ensures var a := RunPlan(info, p, branch, head, log);
      var r := RunPlan(info, p + q, branch, head, log);
      if a.error.Some? then
        r.info == a.info && r.done == a.done && r.error == a.error
      else
        var b := RunPlan(a.info, q, branch, head, log);
        r.info == b.info && r.done == a.done + b.done && r.error == b.error
    decreases |p|
  {
    if p == [] {
      assert p + q == q;
    } else {
      assert (p + q)[0] == p[0];
      assert (p + q)[1..] == p[1..] + q;
      var f := FetchOutcome(info, p[0], branch, head, log);
      if f.error.None? {
        RunPlanAppend(f.info, p[1..], q, branch, head, log);
        var a1 := RunPlan(f.info, p[1..], branch, head, log);
        if a1.error.None? {
          var b := RunPlan(a1.info, q, branch, head, log);
          assert [p[0]] + (a1.done + b.done) == ([p[0]] + a1.done) + b.done;
        }
      }
    }
  }

  /** A one-span plan is one `_get_info` call. */
  lemma RunPlanOne(info: RevInfo, s: Span, branch: string, head: int, log: LogQuery -> string)
    ensures var f := FetchOutcome(info, s, branch, head, log);
      var r := RunPlan(info, [s], branch, head, log);
      r.info == f.info && r.error == f.error && r.done == (if s.hi > head then [] else [s])
  {
    var f := FetchOutcome(info, s, branch, head, log);
    if f.error.None? {
      assert [s][1..] == [];
      assert [s] + [] == [s];
    }
  }

  /** A two-span plan is two `_get_info` calls, the second only when the first succeeds. */
  lemma RunPlanTwo(info: RevInfo, s1: Span, s2: Span, branch: string, head: int, log: LogQuery -> string)
    ensures var f1 := FetchOutcome(info, s1, branch, head, log);
      var r := RunPlan(info, [s1, s2], branch, head, log);
      if f1.error.Some? then
        r.info == f1.info && r.error == f1.error && r.done == (if s1.hi > head then [] else [s1])
      else
        var f2 := FetchOutcome(f1.info, s2, branch, head, log);
        r.info == f2.info && r.error == f2.error && r.done == [s1] + (if s2.hi > head then [] else [s2])
  {
    var f1 := FetchOutcome(info, s1, branch, head, log);
    if f1.error.None? {
      assert [s1, s2][1..] == [s2];
      RunPlanOne(f1.info, s2, branch, head, log);
    }
  }

  /** A run without error has read the log of every span of the plan, and every span ends by the head. */
  lemma {:induction false} RunPlanReadsAll(info: RevInfo, plan: seq<Span>, branch: string, head: int, log: LogQuery -> string)
    requires RunPlan(info, plan, branch, head, log).error.None?
    ensures RunPlan(info, plan, branch, head, log).done == plan
    ensures forall s :: s in plan ==> s.hi <= head
    decreases |plan|
  {
    if plan != [] {
      var f := FetchOutcome(info, plan[0], branch, head, log);
      RunPlanReadsAll(f.info, plan[1..], branch, head, log);
      assert plan == [plan[0]] + plan[1..];
      forall s | s in plan ensures s.hi <= head {
        if s != plan[0] {
          assert s in plan[1..];
        }
      }
    }
  }

  /** A run only adds keys, and keeps the dictionary well formed. */
  lemma {:induction false} RunPlanKeeps(info: RevInfo, plan: seq<Span>, branch: string, head: int, log: LogQuery -> string)
    ensures info.entries.Keys <= RunPlan(info, plan, branch, head, log).info.entries.Keys
    ensures ValidInfo(info) ==> ValidInfo(RunPlan(info, plan, branch, head, log).info)
    decreases |plan|
  {
    if plan != [] {
      if plan[0].hi <= head {
        ParseFromGrows(SpanLines(branch, head, plan[0], log), 0, Initial, info);
      }
      var f := FetchOutcome(info, plan[0], branch, head, log);
      if f.error.None? {
        RunPlanKeeps(f.info, plan[1..], branch, head, log);
      }
    }
  }

  // ---------------------------------------------------------------- the cache object

  /** `ChromiumRepo`: the window `info[0..1]`, the dictionary `info[2]`, and the spans read so far. */
  class ChromiumRepo {
    var knownMin: int
    var knownMax: int
    var records: RevInfo
    ghost var fetched: seq<Span>

    /** The class invariant: the records form a well-formed insertion-ordered dictionary. */
    ghost predicate Valid()
      reads this
    {
      ValidInfo(records)
    }

    /** `__init__`: both bounds at `FAKE_REV`, no records. */
    constructor ()
      ensures Valid()
      ensures knownMin == FAKE_REV && knownMax == FAKE_REV && records == EmptyInfo && fetched == []
      ensures Tiled(knownMin, knownMax, fetched)
    {
      knownMin := FAKE_REV;
      knownMax := FAKE_REV;
      records := EmptyInfo;
      fetched := [];
    }

    /**
     * `_get_info(lo, hi, branch)`: stop with NotReady when `hi` is after the
     * head, else read the log of `lo..hi` and parse it into the records.
     */
    method FetchSpan(lo: int, hi: int, branch: string, head: int, log: LogQuery -> string)
      returns (err: Option<CacheError>)
      requires Valid()
      modifies this
      ensures Valid()
      ensures var f := FetchOutcome(old(records), Span(lo, hi), branch, head, log); records == f.info && err == f.error
      ensures hi > head ==> fetched == old(fetched)
      ensures hi <= head ==> fetched == old(fetched) + [Span(lo, hi)]
      ensures knownMin == old(knownMin) && knownMax == old(knownMax)
    {
      if hi > head {
        return Some(NotReady(hi));
      }
      var lines := SpanLines(branch, head, Span(lo, hi), log);
      fetched := fetched + [Span(lo, hi)];
      ParseFromGrows(lines, 0, Initial, records);
      var info, error := ParseLines(lines, records);
      records := info;
      err := if error.Some? then Some(ParseFailed(error.value)) else None;
    }

    /**
     * `get_info(minRev, maxRev, branch)`: fetch the parts of the request
     * outside the window, widening the window after each fetch.
     */
    method GetInfo(minRev: int, maxRev: int, branch: string, head: int, log: LogQuery -> string)
      returns (err: Option<CacheError>)
      requires Valid()
      modifies this
      ensures Valid()
      ensures var r := RunPlan(old(records), Plan(old(knownMin), old(knownMax), minRev, maxRev), branch, head, log);
        records == r.info && fetched == old(fetched) + r.done && err == r.error
      ensures err.None? ==> Span(knownMin, knownMax) == Widen(old(knownMin), old(knownMax), minRev, maxRev)
      ensures err.Some? ==>
                && knownMax == old(knownMax)
                && knownMin == (if old(knownMin) != FAKE_REV && minRev < old(knownMin)
                                   && FetchOutcome(old(records), Span(minRev, old(knownMin) - 1), branch, head, log).error.None?
                                then minRev else old(knownMin))
      ensures err.None? && old(Tiled(knownMin, knownMax, fetched)) && (minRev > maxRev || maxRev < FAKE_REV) ==>
                Tiled(knownMin, knownMax, fetched)
    {
      ghost var info0, fetched0, kMin0, kMax0 := records, fetched, knownMin, knownMax;
      ghost var plan := Plan(kMin0, kMax0, minRev, maxRev);
      RunPlanKeeps(info0, plan, branch, head, log);
      if minRev > maxRev {
        assert fetched0 + [] == fetched0;
        return None;
      }
      if knownMin <= minRev && knownMax >= maxRev {
        assert fetched0 + [] == fetched0;
        return None;
      }
      if knownMin == FAKE_REV {
        assert plan == [Span(minRev, maxRev)];
        err := FetchSpan(minRev, maxRev, branch, head, log);
        if err.Some? {
          return;
        }
        knownMin := minRev;
        knownMax := maxRev;
      } else {
        err := Extend(minRev, maxRev, branch, head, log);
        if err.Some? {
          return;
        }
      }
      RunPlanReadsAll(info0, plan, branch, head, log);
      if Tiled(kMin0, kMax0, fetched0) && maxRev < FAKE_REV {
        PlanKeepsTiling(kMin0, kMax0, fetched0, minRev, maxRev);
      }
    }

    /**
     * The widening branch of `get_info` on a non-empty cache: fetch the
     * revisions below the window and lower `knownMin`, then those above it
     * and raise `knownMax`; a failure stops before the next bound moves.
     */
    method Extend(minRev: int, maxRev: int, branch: string, head: int, log: LogQuery -> string)
      returns (err: Option<CacheError>)
      requires Valid()
      requires knownMin != FAKE_REV && minRev <= maxRev && !Contained(knownMin, knownMax, minRev, maxRev)
      modifies this
      ensures Valid()
      ensures var r := RunPlan(old(records), Plan(old(knownMin), old(knownMax), minRev, maxRev), branch, head, log);
        records == r.info && fetched == old(fetched) + r.done && err == r.error
      ensures err.None? ==> Span(knownMin, knownMax) == Widen(old(knownMin), old(knownMax), minRev, maxRev)
      ensures err.Some? ==>
                && knownMax == old(knownMax)
                && knownMin == (if minRev < old(knownMin)
                                   && FetchOutcome(old(records), Span(minRev, old(knownMin) - 1), branch, head, log).error.None?
                                then minRev else old(knownMin))
    {
      var infoMin := knownMin;
      var infoMax := knownMax;
      ghost var info0, fetched0 := records, fetched;
      ghost var s1, s2 := Span(minRev, infoMin - 1), Span(infoMax + 1, maxRev);
      ghost var below: seq<Span> := [];  // the span read below the window, if any
      if minRev < infoMin {
        err := FetchSpan(minRev, infoMin - 1, branch, head, log);
        if err.Some? {
          if maxRev > infoMax {
            assert Plan(infoMin, infoMax, minRev, maxRev) == [s1, s2];
            RunPlanTwo(info0, s1, s2, branch, head, log);
          } else {
            assert Plan(infoMin, infoMax, minRev, maxRev) == [s1];
            RunPlanOne(info0, s1, branch, head, log);
          }
          return;
        }
        knownMin := minRev;
        below := [s1];
      }
      if maxRev > infoMax {
        ghost var fetched1 := fetched;
        err := FetchSpan(infoMax + 1, maxRev, branch, head, log);
        ghost var above: seq<Span> := [];  // the span read above the window, if any
        if maxRev <= head {
          above := [s2];
        }
        assert fetched == fetched1 + above;
        assert fetched == fetched0 + (below + above);
        if minRev < infoMin {
          assert Plan(infoMin, infoMax, minRev, maxRev) == [s1, s2];
          RunPlanTwo(info0, s1, s2, branch, head, log);
        } else {
          assert below + above == above;
          assert Plan(infoMin, infoMax, minRev, maxRev) == [s2];
          RunPlanOne(info0, s2, branch, head, log);
        }
        if err.Some? {
          return;
        }
        knownMax := maxRev;
      } else {
        assert Plan(infoMin, infoMax, minRev, maxRev) == [s1];
        RunPlanOne(info0, s1, branch, head, log);
      }
    }

    /**
     * `get_hash_from_rev(rev, branch)`: the hash stored for `rev`, reading
     * its log first only when `rev` is not in the dictionary.
     */
    method GetHashFromRev(rev: int, branch: string, head: int, log: LogQuery -> string)
      returns (r: Result<string, CacheError>)
      requires Valid()
      modifies this
      ensures Valid()
      ensures old(rev in records.entries) ==>
                r == Ok(old(records.entries[rev].hash)) && records == old(records) && fetched == old(fetched)
      ensures old(rev !in records.entries && Contained(knownMin, knownMax, rev, rev)) ==>
                r == Err(MissingRevision(rev)) && records == old(records) && fetched == old(fetched)
      ensures r.Ok? ==> rev in records.entries && r.value == records.entries[rev].hash
      ensures r.Err? && r.error.MissingRevision? ==> rev !in records.entries
      ensures old(rev !in records.entries && !Contained(knownMin, knownMax, rev, rev)) ==>
                var run := RunPlan(old(records), Plan(old(knownMin), old(knownMax), rev, rev), branch, head, log);
                && records == run.info && fetched == old(fetched) + run.done
                && (run.error.Some? ==> r == Err(run.error.value))
                && (run.error.None? ==> Span(knownMin, knownMax) == Widen(old(knownMin), old(knownMax), rev, rev))
                && (run.error.None? ==>
                      r == (if rev in run.info.entries then Ok(run.info.entries[rev].hash) else Err(MissingRevision(rev))))
      ensures old(rev in records.entries || Contained(knownMin, knownMax, rev, rev)) ==>
                knownMin == old(knownMin) && knownMax == old(knownMax)
      ensures (r.Ok? || r.error.MissingRevision?) && old(Tiled(knownMin, knownMax, fetched)) && rev < FAKE_REV ==>
                Tiled(knownMin, knownMax, fetched)
    {
      if rev !in records.entries {
        var err := GetInfo(rev, rev, branch, head, log);
        if err.Some? {
          return Err(err.value);
        }
      }
      if rev !in records.entries {
        return Err(MissingRevision(rev));
      }
      return Ok(records.entries[rev].hash);
    }
  }
}
