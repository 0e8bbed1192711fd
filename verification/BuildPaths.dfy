/**
 * Path strings: the build output directory name, slash direction,
 * MSYS-style drive prefixes and the system paths that need root.
 */
module BuildPaths {
  import opened Wrappers
  import opened Text

  /** The suffix that names the component setting. */
  function ComponentSuffix(noComponentBuild: bool): string {
    if noComponentBuild then "-nocomponent" else "-component"
  }

  /** The suffix that names the dcheck setting. */
  function DcheckSuffix(dcheck: bool): string {
    if dcheck then "-dcheck" else "-nodcheck"
  }

  /**
   * `cal_relative_out_dir`: "out-<arch>-<os>-symbol<level>" followed by
   * "-component" or "-nocomponent" and "-dcheck" or "-nodcheck".
   */
  function RelativeOutDir(targetArch: string, targetOs: string, symbolLevel: int,
                          noComponentBuild: bool, dcheck: bool): (r: string)
    ensures StartsWith(r, "out-" + targetArch + "-" + targetOs + "-symbol")
  {
    var dir := "out-" + targetArch + "-" + targetOs + "-symbol" + IntToString(symbolLevel);
    var r := dir + ComponentSuffix(noComponentBuild) + DcheckSuffix(dcheck);
    assert r == ("out-" + targetArch + "-" + targetOs + "-symbol")
                + (IntToString(symbolLevel) + ComponentSuffix(noComponentBuild) + DcheckSuffix(dcheck));
    r
  }

  /** When `a + x == b + y` and `x` is the shorter tail, `x` ends `y` and what precedes it matches. */
  lemma SuffixesCompatible(a: string, b: string, x: string, y: string)
    requires a + x == b + y && |x| <= |y|
    ensures y[|y| - |x|..] == x && a == b + y[..|y| - |x|]
  {
    var n := |a + x|;
    assert (a + x)[n - |x|..] == x;
    assert (b + y)[n - |x|..] == y[|y| - |x|..];
    assert (a + x)[..n - |x|] == a;
    assert (b + y)[..n - |x|] == b + y[..|y| - |x|];
  }

  /** The dcheck suffix can be read back off the end of a name. */
  lemma DcheckSuffixReadable(a: string, b: string, dcheck1: bool, dcheck2: bool)
    requires a + DcheckSuffix(dcheck1) == b + DcheckSuffix(dcheck2)
    ensures dcheck1 == dcheck2 && a == b
  {
    if dcheck1 && !dcheck2 {
      SuffixesCompatible(a, b, "-dcheck", "-nodcheck");
      assert false;
    } else if !dcheck1 && dcheck2 {
      SuffixesCompatible(b, a, "-dcheck", "-nodcheck");
      assert false;
    } else {
      SuffixesCompatible(a, b, DcheckSuffix(dcheck1), DcheckSuffix(dcheck2));
    }
  }

  /** The component suffix can be read back off the end of a name. */
  lemma ComponentSuffixReadable(a: string, b: string, no1: bool, no2: bool)
    requires a + ComponentSuffix(no1) == b + ComponentSuffix(no2)
    ensures no1 == no2 && a == b
  {
    if !no1 && no2 {
      SuffixesCompatible(a, b, "-component", "-nocomponent");
      assert false;
    } else if no1 && !no2 {
      SuffixesCompatible(b, a, "-component", "-nocomponent");
      assert false;
    } else {
      SuffixesCompatible(a, b, ComponentSuffix(no1), ComponentSuffix(no2));
    }
  }

  /**
   * For a given architecture and OS the directory name determines the
   * symbol level and both flags: different settings never share a directory.
   */
  lemma RelativeOutDirInjective(targetArch: string, targetOs: string,
                                level1: int, noComponent1: bool, dcheck1: bool,
                                level2: int, noComponent2: bool, dcheck2: bool)
    requires RelativeOutDir(targetArch, targetOs, level1, noComponent1, dcheck1)
          == RelativeOutDir(targetArch, targetOs, level2, noComponent2, dcheck2)
    ensures level1 == level2 && noComponent1 == noComponent2 && dcheck1 == dcheck2
  {
    var p := "out-" + targetArch + "-" + targetOs + "-symbol";
    var c, d := p + IntToString(level1), p + IntToString(level2);
    DcheckSuffixReadable(c + ComponentSuffix(noComponent1), d + ComponentSuffix(noComponent2), dcheck1, dcheck2);
    ComponentSuffixReadable(c, d, noComponent1, noComponent2);
    assert c[|p|..] == IntToString(level1) && d[|p|..] == IntToString(level2);
    IntToStringRoundTrip(level1);
    IntToStringRoundTrip(level2);
  }

  /**
   * `format_slash`: on Windows every '/' becomes '\', elsewhere every
   * '\' becomes '/'; nothing else changes.
   */
  function FormatSlash(s: string, isWin32: bool): (r: string)
    ensures |r| == |s|
    ensures forall k :: 0 <= k < |s| ==>
              r[k] == (if isWin32 && s[k] == '/' then '\\' else if !isWin32 && s[k] == '\\' then '/' else s[k])
  {
    if isWin32 then ReplaceAll(s, "/", "\\") else ReplaceAll(s, "\\", "/")
  }

  /** After formatting, only the platform's own separator is left. */
  lemma FormatSlashUniform(s: string, isWin32: bool)
    ensures isWin32 ==> '/' !in FormatSlash(s, isWin32)
    ensures !isWin32 ==> '\\' !in FormatSlash(s, isWin32)
  {
    var r := FormatSlash(s, isWin32);
    assert forall k :: 0 <= k < |r| ==> r[k] != (if isWin32 then '/' else '\\');
  }

  /** Formatting twice is formatting once. */
  lemma FormatSlashIdempotent(s: string, isWin32: bool)
    ensures FormatSlash(FormatSlash(s, isWin32), isWin32) == FormatSlash(s, isWin32)
  {
  }

  /** A path without backslashes survives a round trip through the Windows form. */
  lemma FormatSlashRoundTrip(s: string)
    requires '\\' !in s
    ensures FormatSlash(FormatSlash(s, true), false) == s
  {
  }

  /** `re.match('/(.)/', s)`: the character between the first two slashes, '.' excluding a newline. */
  function DriveOf(s: string): (d: Option<char>)
    ensures d.Some? ==> |s| >= 3 && s[..3] == ['/', d.value, '/'] && d.value != '\n'
    ensures d.None? ==> !(|s| >= 3 && s[0] == '/' && s[2] == '/' && s[1] != '\n')
  {
    if |s| >= 3 && s[0] == '/' && s[1] != '\n' && s[2] == '/' then Some(s[1]) else None
  }

  /** The Windows drive prefix "X:/" for drive letter `d`: `'%s:/' % drive.capitalize()`. */
  function DrivePrefix(d: char): string {
    [UpperChar(d), ':', '/']
  }

  /**
   * `use_drive` as written: once the path starts with "/d/", every
   * occurrence of "/d/" in it is replaced, not only the leading one.
   */
  function UseDriveAsWritten(s: string): (r: string)
    ensures |r| == |s|
    ensures DriveOf(s).None? ==> r == s
    ensures DriveOf(s).Some? ==> r[..3] == DrivePrefix(s[1])
  {
    match DriveOf(s)
    case None => s
    case Some(d) =>
      var pat := ['/', d, '/'];
      assert s[..|pat|] == pat;
      ReplaceAll(s, pat, DrivePrefix(d))
  }

  /** `use_drive`: an MSYS path "/d/rest" becomes the Windows path "D:/rest"; any other path is kept. */
  function UseDrive(s: string): (r: string)
    ensures DriveOf(s).None? ==> r == s
    ensures DriveOf(s).Some? ==> |r| == |s| && r[..3] == DrivePrefix(s[1]) && r[3..] == s[3..]
  {
    match DriveOf(s)
    case None => s
    case Some(d) => DrivePrefix(d) + s[3..]
  }

  /** The two agree whenever "/d/" does not occur again after the leading drive. */
  lemma UseDriveAgrees(s: string)
    requires DriveOf(s).Some?
    requires forall k: nat :: !OccursAt(s[3..], s[..3], k)
    ensures UseDriveAsWritten(s) == UseDrive(s)
  {
    var pat := s[..3];
    ReplaceAllAbsent(s[3..], pat, DrivePrefix(s[1]));
  }

  /** The rewriting of the tail "a/c/b" that follows the leading "/c/". */
  lemma ReplaceInnerSegment()
    ensures ReplaceAll("a/c/b", "/c/", "C:/") == "aC:/b"
  {
    var pat, rep := "/c/", "C:/";
    assert ReplaceAll("b", pat, rep) == "b";
    assert "/c/b"[..3] == pat && "/c/b"[3..] == "b";
    assert ReplaceAll("/c/b", pat, rep) == rep + "b";
    assert "a/c/b"[..3] != pat && "a/c/b"[1..] == "/c/b";
  }

  /** "/c/a/c/b": the second "/c/" is rewritten as well, and a separator is lost. */
  lemma UseDriveRewritesInnerSegment()
    ensures UseDriveAsWritten("/c/a/c/b") == "C:/aC:/b"
    ensures UseDrive("/c/a/c/b") == "C:/a/c/b"
  {
    var s := "/c/a/c/b";
    assert DriveOf(s) == Some('c');
    ReplaceInnerSegment();
    assert s[..3] == "/c/" && s[3..] == "a/c/b";
  }

  /** The paths `need_sudo` treats as owned by root; `re.match` on them is a plain prefix test. */
  const SudoPaths: seq<string> := ["chroot/sbin", "/var", "/etc"]

  /** Whether `path` starts with one of `prefixes`, trying them in order. */
  function MatchesAny(prefixes: seq<string>, path: string): (r: bool)
    ensures r <==> exists k :: 0 <= k < |prefixes| && StartsWith(path, prefixes[k])
    decreases |prefixes|
  {
    if prefixes == [] then false
    else if StartsWith(path, prefixes[0]) then true
    else
      var r := MatchesAny(prefixes[1..], path);
      assert forall k :: 1 <= k < |prefixes| ==> prefixes[k] == prefixes[1..][k - 1];
      r
  }

  /** `need_sudo`: true exactly for paths starting with "chroot/sbin", "/var" or "/etc". */
  function NeedSudo(path: string): (r: bool)
    ensures r <==> StartsWith(path, "chroot/sbin") || StartsWith(path, "/var") || StartsWith(path, "/etc")
  {
    MatchesAny(SudoPaths, path)
  }

  /** The test is a string prefix, not a directory prefix: "/variable" needs root, "/home/etc" does not. */
  lemma NeedSudoIsPrefixTest()
    ensures NeedSudo("/variable")
    ensures !NeedSudo("/home/etc")
  {
    assert "/variable"[..4] == "/var";
    assert "/home/etc"[..4] == "/hom";
  }
}
