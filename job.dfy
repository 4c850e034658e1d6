/** The pieces of `create_timelapse` that do not touch the outside world:
    the names of the staged links, the glob pattern ffmpeg reads them by,
    the output path, and the message reported when ffmpeg ends. */
module Job {
  import opened Order
  import opened Decimal

  /** `img_{i:05d}{ext}`: the name of the link to the `i`-th selected photo. */
  function LinkName(i: nat, ext: string): string
  {
    "img_" + ZeroPad(i, 5) + ext
  }

  /** What `os.path.join(dir, name)` puts before a relative `name`: `dir`
      itself when it is empty or already ends with `/`, else `dir + "/"`. */
  function DirPrefix(dir: string): string
  {
    if dir == "" || dir[|dir| - 1] == '/' then dir else dir + "/"
  }

  /** `os.path.join(dir, name)` on POSIX: an absolute `name` replaces `dir`. */
  function PathJoin(dir: string, name: string): string
  {
    if |name| > 0 && name[0] == '/' then name else DirPrefix(dir) + name
  }

  /** `os.path.join(temp_dir, f"*{ext}")`: the pattern ffmpeg expands. */
  function InputPattern(tempDir: string, ext: string): string
  {
    PathJoin(tempDir, "*" + ext)
  }

  /** `path` matches the glob `prefix*suffix`: it starts with `prefix`, ends
      with `suffix`, and the part matched by `*` has no `/` in it. */
  predicate GlobMatches(prefix: string, suffix: string, path: string)
  {
    && |prefix| + |suffix| <= |path|
    && path[..|prefix|] == prefix
    && path[|path| - |suffix|..] == suffix
    && '/' !in path[|prefix|..|path| - |suffix|]
  }

  /** A staged symbolic link: where it is created and what it points to. */
  datatype Link = Link(path: string, target: string)

  /** The link `create_timelapse` creates for the `i`-th selected photo. */
  function StagedLink(tempDir: string, ext: string, i: nat, photo: string): Link
  {
    Link(PathJoin(tempDir, LinkName(i, ext)), photo)
  }

  /** The paths of the links staged for `n` photos, in staging order. */
  function StagedPaths(tempDir: string, ext: string, n: nat): (paths: seq<string>)
    ensures |paths| == n
  {
    seq(n, i requires 0 <= i < n => PathJoin(tempDir, LinkName(i, ext)))
  }

  /** The loop of `create_timelapse` that creates one link per selected
      photo, numbered in selection order, all with the first photo's extension. */
  method StageLinks(tempDir: string, ext: string, photos: seq<string>) returns (links: seq<Link>)
    ensures |links| == |photos|
    ensures forall i :: 0 <= i < |links| ==> links[i] == StagedLink(tempDir, ext, i, photos[i])
  {
    links := [];
    var i := 0;
    while i < |photos|
      invariant i <= |photos| && |links| == i
      invariant forall k :: 0 <= k < i ==> links[k] == StagedLink(tempDir, ext, k, photos[k])
    {
      links := links + [StagedLink(tempDir, ext, i, photos[i])];
      i := i + 1;
    }
  }

  /** Different indices give different link names, whatever the number of
      photos: the zero-padded number reads back as the index. */
  lemma LinkNamesDistinct(i: nat, j: nat, ext: string)
    requires i != j
    ensures LinkName(i, ext) != LinkName(j, ext)
  {
    var a, b := ZeroPad(i, 5), ZeroPad(j, 5);
    if LinkName(i, ext) == LinkName(j, ext) {
      assert |a| == |b|;
      assert a == LinkName(i, ext)[4..4 + |a|];
      assert b == LinkName(j, ext)[4..4 + |b|];
      ZeroPadInjective(i, j, 5);
    }
  }

  /** Below 100000 photos, the link names sort as their indices do, so the
      frames come out in selection order. */
  lemma LinkNamesOrdered(i: nat, j: nat, ext: string)
    requires i < j < 100000
    ensures LexLess(LinkName(i, ext), LinkName(j, ext))
  {
    assert Pow10(5) == 100000;
    var a, b := ZeroPad(i, 5), ZeroPad(j, 5);
    ZeroPadOrder(i, j, 5);
    ZeroPadLength(i, 5);
    ZeroPadLength(j, 5);
    LexEqualLengthExtend(a, b, ext, ext);
    LexCommonPrefix("img_", a + ext, b + ext);
    assert LinkName(i, ext) == "img_" + (a + ext);
    assert LinkName(j, ext) == "img_" + (b + ext);
  }

  /** From the 100001st photo on, five digits no longer suffice: the link of
      photo 100000 sorts before the link of photo 10001. */
  lemma LinkOrderBreaksAt100000(ext: string)
    ensures LexLess(LinkName(100000, ext), LinkName(10001, ext))
  {
    HundredThousandDigits();
    SixDigitsSortFirst(ext);
    LexCommonPrefix("img_", "100000" + ext, "10001" + ext);
    assert LinkName(100000, ext) == "img_" + ("100000" + ext);
    assert LinkName(10001, ext) == "img_" + ("10001" + ext);
  }

  /** `100000` followed by any extension sorts before `10001` followed by it. */
  lemma SixDigitsSortFirst(ext: string)
    ensures LexLess("100000" + ext, "10001" + ext)
  {
    assert LexLess("10000", "10001") by {
      LexCommonPrefix("1000", "0", "1");
      assert "1000" + "0" == "10000" && "1000" + "1" == "10001";
    }
    LexEqualLengthExtend("10000", "10001", "0" + ext, ext);
    assert "100000" + ext == "10000" + ("0" + ext);
  }

  lemma HundredThousandDigits()
    ensures ZeroPad(100000, 5) == "100000" && ZeroPad(10001, 5) == "10001"
  {
    assert Digits(1) == "1";
    assert Digits(10) == "10";
    assert Digits(100) == "100";
    assert Digits(1000) == "1000";
    assert Digits(10000) == "10000";
    assert Digits(10001) == "10001";
    assert Digits(100000) == "100000";
  }

  /** Every staged link matches the input pattern, with the `*` covering the
      `img_` name and its number. */
  lemma StagedLinkMatchesPattern(tempDir: string, ext: string, i: nat)
    ensures InputPattern(tempDir, ext) == DirPrefix(tempDir) + "*" + ext
    ensures GlobMatches(DirPrefix(tempDir), ext, PathJoin(tempDir, LinkName(i, ext)))
  {
    var pre, mid := DirPrefix(tempDir), "img_" + ZeroPad(i, 5);
    assert ("*" + ext)[0] == '*';
    assert LinkName(i, ext)[0] == 'i';
    assert PathJoin(tempDir, LinkName(i, ext)) == pre + mid + ext;
    LinkStemSlashFree(i);
    GlobMatchesMiddle(pre, mid, ext);
  }

  /** The name of a link up to its extension has no `/` in it. */
  lemma LinkStemSlashFree(i: nat)
    ensures '/' !in "img_" + ZeroPad(i, 5)
  {
    var digits := ZeroPad(i, 5);
    var mid := "img_" + digits;
    assert forall k :: 0 <= k < |digits| ==> IsDigit(digits[k]);
    assert forall k :: 4 <= k < |mid| ==> mid[k] == digits[k - 4];
  }

  /** A path made of the prefix, a slash-free middle and the suffix matches
      the glob `prefix*suffix`. */
  lemma GlobMatchesMiddle(prefix: string, mid: string, suffix: string)
    requires '/' !in mid
    ensures GlobMatches(prefix, suffix, prefix + mid + suffix)
  {
    var path := prefix + mid + suffix;
    assert path[..|prefix|] == prefix;
    assert path[|path| - |suffix|..] == suffix;
    assert path[|prefix|..|path| - |suffix|] == mid;
  }

  /** Distinct indices give distinct link paths in the same directory. */
  lemma StagedPathsDistinct(tempDir: string, ext: string, n: nat)
    ensures var paths := StagedPaths(tempDir, ext, n);
      forall i, j :: 0 <= i < j < n ==> paths[i] != paths[j]
  {
    var paths := StagedPaths(tempDir, ext, n);
    var pre := DirPrefix(tempDir);
    forall i, j | 0 <= i < j < n ensures paths[i] != paths[j] {
      LinkNamesDistinct(i, j, ext);
      assert LinkName(i, ext)[0] == 'i' && LinkName(j, ext)[0] == 'i';
      assert paths[i] == pre + LinkName(i, ext) && paths[j] == pre + LinkName(j, ext);
      assert paths[i][|pre|..] == LinkName(i, ext);
      assert paths[j][|pre|..] == LinkName(j, ext);
    }
  }

  /** Below 100000 photos, sorting the staged paths (as the glob expansion
      does) keeps them in staging order: frame `i` is the `i`-th selected photo. */
  lemma FramesFollowSelection(tempDir: string, ext: string, n: nat)
    requires n <= 100000
    ensures SortStrings(StagedPaths(tempDir, ext, n)) == StagedPaths(tempDir, ext, n)
  {
    var paths := StagedPaths(tempDir, ext, n);
    var pre := DirPrefix(tempDir);
    forall i, j | 0 <= i < j < n ensures LexLe(paths[i], paths[j]) {
      LinkNamesOrdered(i, j, ext);
      LexCommonPrefix(pre, LinkName(i, ext), LinkName(j, ext));
      assert LinkName(i, ext)[0] == 'i' && LinkName(j, ext)[0] == 'i';
    }
    SortedUnique(SortStrings(paths), paths);
  }

  /** `".mov" if codec == "prores_ks" else ".mp4"`. */
  function OutputExtension(codec: string): string
  {
    if codec == "prores_ks" then ".mov" else ".mp4"
  }

  /** The file name of the finished timelapse. */
  function OutputFileName(timestamp: string, outputExt: string): string
  {
    "timelapse_" + timestamp + outputExt
  }

  /** `home.rstrip("/")`, as `os.path.expanduser` treats the home directory. */
  function TrimSlashes(home: string): (r: string)
    ensures |r| <= |home| && r == home[..|r|]
    ensures r == [] || r[|r| - 1] != '/'
    ensures forall k :: |r| <= k < |home| ==> home[k] == '/'
  {
    if home != [] && home[|home| - 1] == '/' then TrimSlashes(home[..|home| - 1]) else home
  }

  /** `os.path.expanduser(f"~/Desktop/timelapse_{timestamp}{output_ext}")`
      with `home` the user's home directory. */
  function OutputPath(home: string, timestamp: string, outputExt: string): string
  {
    TrimSlashes(home) + "/Desktop/" + OutputFileName(timestamp, outputExt)
  }

  /** The output file is a `.mov` exactly for ProRes and an `.mp4` otherwise,
      and it is the file `timelapse_<timestamp><ext>` in the Desktop folder. */
  lemma OutputFollowsCodec(home: string, timestamp: string, codec: string)
    ensures var ext, path := OutputExtension(codec), OutputPath(home, timestamp, OutputExtension(codec));
      && (ext == ".mov" <==> codec == "prores_ks")
      && (ext == ".mp4" <==> codec != "prores_ks")
      && |path| >= 4 && path[|path| - 4..] == ext
      && path == TrimSlashes(home) + "/Desktop/" + OutputFileName(timestamp, ext)
  {
    var ext := OutputExtension(codec);
    var path := OutputPath(home, timestamp, ext);
    assert path == (TrimSlashes(home) + "/Desktop/timelapse_" + timestamp) + ext;
  }

  /** `stderr[-200:] if len(stderr) > 200 else stderr`. */
  function ErrorTail(stderr: string): (tail: string)
    ensures |tail| <= 200 && |tail| <= |stderr|
    ensures |stderr| <= 200 ==> tail == stderr
    ensures |stderr| > 200 ==> |tail| == 200
    ensures tail == stderr[|stderr| - |tail|..]
  {
    if |stderr| > 200 then stderr[|stderr| - 200..] else stderr
  }

  /** What the user is told once ffmpeg has ended. */
  datatype Report = Saved(message: string) | Failed(message: string)

  /** The text the error alert puts before ffmpeg's error output. */
  const FailurePrefix := "Failed to create timelapse:\n"

  /** The success notification on exit code 0, the error alert otherwise. */
  function JobReport(exitCode: int, timestamp: string, outputExt: string, stderr: string): Report
  {
    if exitCode == 0 then Saved("Saved to Desktop: " + OutputFileName(timestamp, outputExt))
    else Failed(FailurePrefix + ErrorTail(stderr))
  }

  /** The success message ends with the name of the file written at the
      output path, and the error message ends with at most the last 200
      characters of ffmpeg's error output, all of it when there are fewer. */
  lemma ReportDescribesOutcome(home: string, exitCode: int, timestamp: string, outputExt: string, stderr: string)
    ensures var r, path := JobReport(exitCode, timestamp, outputExt, stderr), OutputPath(home, timestamp, outputExt);
      var name := OutputFileName(timestamp, outputExt);
      && (r.Saved? <==> exitCode == 0)
      && (r.Saved? ==>
            && |name| < |path| && path[|path| - |name| - 1..] == "/" + name
            && |name| <= |r.message| && r.message[|r.message| - |name|..] == name)
      && (r.Failed? ==>
            && |FailurePrefix| <= |r.message| <= |FailurePrefix| + 200
            && r.message[..|FailurePrefix|] == FailurePrefix
            && r.message[|FailurePrefix|..] == stderr[|stderr| - (|r.message| - |FailurePrefix|)..]
            && (|stderr| <= 200 ==> r.message[|FailurePrefix|..] == stderr)
            && (|stderr| > 200 ==> |r.message| == |FailurePrefix| + 200))
  {
    var path := OutputPath(home, timestamp, outputExt);
    var name := OutputFileName(timestamp, outputExt);
    var r := JobReport(exitCode, timestamp, outputExt, stderr);
    if r.Saved? {
      assert path == (TrimSlashes(home) + "/Desktop") + ("/" + name);
      assert r.message == "Saved to Desktop: " + name;
    } else {
      assert r.message[|FailurePrefix|..] == ErrorTail(stderr);
    }
  }
}
