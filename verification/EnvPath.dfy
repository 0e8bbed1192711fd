/**
 * The PATH list logic: putting entries in front of PATH and taking an
 * entry out of it. PATH is read as a string, split at the environment
 * separator, changed as a list and joined back; the caller reads and
 * writes the environment variable.
 */
module EnvPath {
  import opened Text

  /** `x` occurs nowhere in `xs` before index `j`. */
  predicate NewAt(xs: seq<string>, j: nat)
    requires j < |xs|
  {
    forall i :: 0 <= i < j ==> xs[i] != xs[j]
  }

  /**
   * The loop of `prepend_path`: each old entry is appended to `acc`
   * unless `acc` already holds it.
   */
  function AppendMissing(acc: seq<string>, paths: seq<string>): (r: seq<string>)
    ensures |acc| <= |r| && r[..|acc|] == acc
    decreases |paths|
  {
    if paths == [] then acc
    else
      var acc' := if paths[0] in acc then acc else acc + [paths[0]];
      var r := AppendMissing(acc', paths[1..]);
      assert r[..|acc|] == r[..|acc'|][..|acc|];
      r
  }

  /** `prepend_path` on lists: the new entries, then the old entries they do not already hold. */
  function Prepended(paths: seq<string>, newPaths: seq<string>): seq<string> {
    AppendMissing(newPaths, paths)
  }

  /** The result holds exactly the entries of both lists. */
  lemma {:induction false} AppendMissingMembers(acc: seq<string>, paths: seq<string>, x: string)
    ensures x in AppendMissing(acc, paths) <==> x in acc || x in paths
    decreases |paths|
  {
    if paths != [] {
      var acc' := if paths[0] in acc then acc else acc + [paths[0]];
      AppendMissingMembers(acc', paths[1..], x);
      assert x in paths <==> x == paths[0] || x in paths[1..];
    }
  }

  /** Every entry appended after `acc` is new: it appears nowhere before itself. */
  lemma {:induction false} AppendMissingAddsNoDuplicates(acc: seq<string>, paths: seq<string>)
    ensures forall j :: |acc| <= j < |AppendMissing(acc, paths)| ==> NewAt(AppendMissing(acc, paths), j)
    decreases |paths|
  {
    if paths != [] {
      var acc' := if paths[0] in acc then acc else acc + [paths[0]];
      var r := AppendMissing(acc', paths[1..]);
      AppendMissingAddsNoDuplicates(acc', paths[1..]);
      if paths[0] !in acc {
        assert r[..|acc'|] == acc';
        forall i | 0 <= i < |acc| ensures r[i] != r[|acc|] {
          assert r[i] == acc'[i] && r[|acc|] == acc'[|acc|] == paths[0];
        }
      }
    }
  }

  /** Old entries already all present add nothing. */
  lemma {:induction false} AppendMissingPresent(acc: seq<string>, paths: seq<string>)
    requires forall k :: 0 <= k < |paths| ==> paths[k] in acc
    ensures AppendMissing(acc, paths) == acc
    decreases |paths|
  {
    if paths != [] {
      AppendMissingPresent(acc, paths[1..]);
    }
  }

  /** Entries that are pairwise distinct and absent from `acc` are all appended, in order. */
  lemma {:induction false} AppendMissingFresh(acc: seq<string>, paths: seq<string>)
    requires forall k :: 0 <= k < |paths| ==> paths[k] !in acc
    requires forall i, j :: 0 <= i < j < |paths| ==> paths[i] != paths[j]
    ensures AppendMissing(acc, paths) == acc + paths
    decreases |paths|
  {
    if paths != [] {
      var acc' := acc + [paths[0]];
      forall k | 0 <= k < |paths[1..]| ensures paths[1..][k] !in acc' {
        assert paths[1..][k] == paths[k + 1];
      }
      AppendMissingFresh(acc', paths[1..]);
      assert acc' + paths[1..] == acc + paths;
    }
  }

  /** Folding over two lists in turn is folding over their concatenation. */
  lemma {:induction false} AppendMissingConcat(acc: seq<string>, xs: seq<string>, ys: seq<string>)
    ensures AppendMissing(acc, xs + ys) == AppendMissing(AppendMissing(acc, xs), ys)
    decreases |xs|
  {
    if xs == [] {
      assert xs + ys == ys;
    } else {
      var acc' := if xs[0] in acc then acc else acc + [xs[0]];
      assert (xs + ys)[0] == xs[0] && (xs + ys)[1..] == xs[1..] + ys;
      AppendMissingConcat(acc', xs[1..], ys);
    }
  }

  /**
   * What `prepend_path` promises: the new entries come first and are kept
   * as given, the old entries follow, and no entry is added twice.
   */
  lemma PrependedShape(paths: seq<string>, newPaths: seq<string>)
    ensures var r := Prepended(paths, newPaths);
            && r[..|newPaths|] == newPaths
            && (forall x :: x in r <==> x in newPaths || x in paths)
            && forall j :: |newPaths| <= j < |r| ==> NewAt(r, j)
  {
    forall x ensures x in Prepended(paths, newPaths) <==> x in newPaths || x in paths {
      AppendMissingMembers(newPaths, paths, x);
    }
    AppendMissingAddsNoDuplicates(newPaths, paths);
  }

  /** Prepending the same entries a second time changes nothing. */
  lemma PrependedIdempotent(paths: seq<string>, newPaths: seq<string>)
    ensures Prepended(Prepended(paths, newPaths), newPaths) == Prepended(paths, newPaths)
  {
    var r := Prepended(paths, newPaths);
    var tail := r[|newPaths|..];
    PrependedShape(paths, newPaths);
    assert r == newPaths + tail;
    AppendMissingConcat(newPaths, newPaths, tail);
    AppendMissingPresent(newPaths, newPaths);
    forall k | 0 <= k < |tail| ensures tail[k] !in newPaths {
      assert tail[k] == r[|newPaths| + k];
      assert NewAt(r, |newPaths| + k);
    }
    forall i, j | 0 <= i < j < |tail| ensures tail[i] != tail[j] {
      assert NewAt(r, |newPaths| + j);
      assert r[|newPaths| + i] == tail[i] && r[|newPaths| + j] == tail[j];
    }
    AppendMissingFresh(newPaths, tail);
  }

  /**
   * `prepend_path`: `path` and PATH split at `sep`, the old entries
   * appended to the new ones where missing, and the list joined back.
   */
  method PrependPath(pathEnv: string, path: string, sep: char) returns (newEnv: string)
    ensures newEnv == Join(Prepended(Split(pathEnv, sep), Split(path, sep)), sep)
  {
    var paths := Split(pathEnv, sep);
    var newPaths := Split(path, sep);
    ghost var goal := Prepended(paths, newPaths);
    var i := 0;
    while i < |paths|
      invariant i <= |paths|
      invariant AppendMissing(newPaths, paths[i..]) == goal
    {
      var tmpPath := paths[i];
      assert paths[i..][0] == tmpPath && paths[i..][1..] == paths[i + 1..];
      if tmpPath !in newPaths {
        newPaths := newPaths + [tmpPath];
      }
      i := i + 1;
    }
    assert paths[i..] == [];
    newEnv := Join(newPaths, sep);
  }

  /** `list.remove(x)`: drops the first occurrence of `x`. */
  function RemoveFirst(xs: seq<string>, x: string): (r: seq<string>)
    requires x in xs
    ensures |r| == |xs| - 1
    decreases |xs|
  {
    if xs[0] == x then xs[1..] else [xs[0]] + RemoveFirst(xs[1..], x)
  }

  /**
   * `remove_path` as written: the loop walks the list by position while
   * `list.remove` shortens it, so the entry after each removed one is
   * never looked at.
   */
  function RemoveWhileIterating(paths: seq<string>, path: string, i: nat): (r: seq<string>)
    decreases |paths| - i
  {
    if i >= |paths| then paths
    else if paths[i] == path then RemoveWhileIterating(RemoveFirst(paths, path), path, i + 1)
    else RemoveWhileIterating(paths, path, i + 1)
  }

  /** The entries other than `path`, in their order. */
  function Without(paths: seq<string>, path: string): (r: seq<string>)
    ensures path !in r
    ensures forall x :: x != path ==> (x in r <==> x in paths)
    ensures |r| <= |paths|
    decreases |paths|
  {
    if paths == [] then []
    else
      var rest := Without(paths[1..], path);
      assert forall x :: x in paths <==> x == paths[0] || x in paths[1..];
      if paths[0] == path then rest else [paths[0]] + rest
  }

  lemma {:induction false} WithoutRemoveFirst(xs: seq<string>, x: string)
    requires x in xs
    ensures Without(RemoveFirst(xs, x), x) == Without(xs, x)
    decreases |xs|
  {
    if xs[0] != x {
      WithoutRemoveFirst(xs[1..], x);
      assert ([xs[0]] + RemoveFirst(xs[1..], x))[1..] == RemoveFirst(xs[1..], x);
    }
  }

  /** The loop as written keeps every other entry, in order; it only fails to drop some copies of `path`. */
  lemma {:induction false} RemoveWhileIteratingKeepsOthers(paths: seq<string>, path: string, i: nat)
    ensures Without(RemoveWhileIterating(paths, path, i), path) == Without(paths, path)
    decreases |paths| - i
  {
    if i < |paths| {
      if paths[i] == path {
        RemoveWhileIteratingKeepsOthers(RemoveFirst(paths, path), path, i + 1);
        WithoutRemoveFirst(paths, path);
      } else {
        RemoveWhileIteratingKeepsOthers(paths, path, i + 1);
      }
    }
  }

  /** Two adjacent copies of `path`: the second one survives. */
  lemma AdjacentCopySurvives()
    ensures RemoveWhileIterating(["a", "a"], "a", 0) == ["a"]
    ensures Without(["a", "a"], "a") == []
  {
    assert RemoveFirst(["a", "a"], "a") == ["a"];
    assert RemoveWhileIterating(["a"], "a", 1) == ["a"];
  }

  /** `remove_path` as written, on the PATH string. */
  method RemovePathAsWritten(pathEnv: string, path: string, sep: char) returns (newEnv: string)
    ensures newEnv == Join(RemoveWhileIterating(Split(pathEnv, sep), path, 0), sep)
  {
    var paths := Split(pathEnv, sep);
    ghost var goal := RemoveWhileIterating(paths, path, 0);
    var i := 0;
    while i < |paths|
      invariant RemoveWhileIterating(paths, path, i) == goal
      decreases |paths| - i
    {
      if paths[i] == path {
        paths := RemoveFirst(paths, path);
      }
      i := i + 1;
    }
    newEnv := Join(paths, sep);
  }

  /** Removing twice is removing once. */
  lemma {:induction false} WithoutIdempotent(paths: seq<string>, path: string)
    ensures Without(Without(paths, path), path) == Without(paths, path)
    decreases |paths|
  {
    if paths != [] {
      WithoutIdempotent(paths[1..], path);
      var rest := Without(paths[1..], path);
      if paths[0] != path {
        assert ([paths[0]] + rest)[1..] == rest;
      }
    }
  }

  /** A list without `path` is left as it is. */
  lemma {:induction false} WithoutAbsent(paths: seq<string>, path: string)
    requires path !in paths
    ensures Without(paths, path) == paths
    decreases |paths|
  {
    if paths != [] {
      WithoutAbsent(paths[1..], path);
      assert [paths[0]] + paths[1..] == paths;
    }
  }

  lemma {:induction false} WithoutAppend(xs: seq<string>, x: string, path: string)
    ensures Without(xs + [x], path) == Without(xs, path) + (if x == path then [] else [x])
    decreases |xs|
  {
    if xs == [] {
      assert [] + [x] == [x];
      assert [x][1..] == [];
    } else {
      assert (xs + [x])[0] == xs[0] && (xs + [x])[1..] == xs[1..] + [x];
      WithoutAppend(xs[1..], x, path);
    }
  }

  /** `remove_path` as intended: every copy of `path` leaves PATH, the other entries stay in order. */
  method RemovePath(pathEnv: string, path: string, sep: char) returns (newEnv: string)
    ensures newEnv == Join(Without(Split(pathEnv, sep), path), sep)
  {
    var paths := Split(pathEnv, sep);
    var kept: seq<string> := [];
    var i := 0;
    while i < |paths|
      invariant i <= |paths|
      invariant kept == Without(paths[..i], path)
    {
      WithoutAppend(paths[..i], paths[i], path);
      assert paths[..i + 1] == paths[..i] + [paths[i]];
      if paths[i] != path {
        kept := kept + [paths[i]];
      }
      i := i + 1;
    }
    assert paths[..i] == paths;
    newEnv := Join(kept, sep);
  }
}
