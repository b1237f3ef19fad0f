/** The bookkeeping around FFmpeg in `dovideo`: how `Cut` sizes and names the segments and
    which of them it returns, the list file `Concat` feeds to FFmpeg, the default target of
    `Convt`, and the parsing of `GetResolution`. FFmpeg and ffprobe themselves are
    parameters: a run is a function from its argument list to an optional error, and a
    probe is the text it printed. */
module DoVideo {
  import opened Wrappers
  import opened Strs
  import opened PathUtil
  import Fs

  datatype Error =
    | MkdirFailed(msg: string)
    | StatFailed(path: string)
    | DurationFailed(msg: string)
    | FfmpegFailed(msg: string)
    | ReadDirFailed(msg: string)
    | WriteFailed(msg: string)
    | NoVideos
    | AlreadyMp4
    | BadWidth(text: string)
    | BadHeight(text: string)
      /** A Go run-time panic: an integer division by zero or a nil dereference. */
    | Panicked

  /* ---------------------------------------------------------------------------------- */
  /* Cut                                                                                  */

  /** Segments smaller than this are taken for FFmpeg's leftovers. */
  const MinSegment: nat := 512 * 1024

  /** `Cut`'s target directory: the video's own directory when `dstDir` is blank. */
  function CutDstDir(path: string, dstDir: string): string
  {
    if TrimSpace(dstDir) == "" then PathUtil.Dir(path) else dstDir
  }

  /** The target directory is the video's own exactly when `dstDir` holds only spaces. */
  lemma CutDstDirBlank(path: string, dstDir: string)
    ensures (forall k :: 0 <= k < |dstDir| ==> IsSpace(dstDir[k])) ==> CutDstDir(path, dstDir) == PathUtil.Dir(path)
    ensures (exists k :: 0 <= k < |dstDir| && !IsSpace(dstDir[k])) ==> CutDstDir(path, dstDir) == dstDir
  {
    TrimSpaceBlank(dstDir);
  }

  /** The number of segments: the file size over the segment size, rounded up. */
  function SegmentCount(size: nat, maxSegSize: int): (n: nat)
    requires maxSegSize > 0
  {
    (size + maxSegSize - 1) / maxSegSize
  }

  /** `SegmentCount` is the ceiling: `n` segments of the maximal size hold the file, and
      `n - 1` do not. */
  lemma SegmentCountIsCeiling(size: nat, maxSegSize: int)
    requires maxSegSize > 0
    ensures var n := SegmentCount(size, maxSegSize);
      && size <= n * maxSegSize
      && (size > 0 ==> n >= 1 && (n - 1) * maxSegSize < size)
      && (size == 0 ==> n == 0)
  {
    var n := SegmentCount(size, maxSegSize);
    var r := (size + maxSegSize - 1) % maxSegSize;
    assert size + maxSegSize - 1 == n * maxSegSize + r;
    if size == 0 {
      assert n * maxSegSize <= maxSegSize - 1 < maxSegSize;
      assert n * maxSegSize < 1 * maxSegSize;
    } else {
      assert (n - 1) * maxSegSize == n * maxSegSize - maxSegSize;
    }
  }

  /** Go's `/` on integers: the quotient truncated toward zero. */
  function GoQuot(a: int, b: int): int
    requires b != 0
  {
    var m := (if a < 0 then -a else a) / (if b < 0 then -b else b);
    if (a < 0) != (b < 0) then -m else m
  }

  /** Go's quotient leaves a remainder smaller than the divisor and of the dividend's sign. */
  lemma GoQuotTruncates(a: int, b: int)
    requires b != 0
    ensures var rem := a - GoQuot(a, b) * b;
      (rem == 0 || (rem < 0 <==> a < 0)) && (if rem < 0 then -rem else rem) < (if b < 0 then -b else b)
  {
    var m := (if a < 0 then -a else a) / (if b < 0 then -b else b);
    var ab := if b < 0 then -b else b;
    var aa := if a < 0 then -a else a;
    assert aa == m * ab + aa % ab;
    if (a < 0) != (b < 0) {
      assert GoQuot(a, b) * b == m * ab * (if a < 0 then -1 else 1);
    } else {
      assert GoQuot(a, b) * b == m * ab * (if a < 0 then -1 else 1);
    }
  }

  /** The file-name stem `Cut` numbers: the base name without its extension. */
  function Stem(path: string): string
  {
    TrimSuffix(PathUtil.Base(path), PathUtil.Ext(path))
  }

  /** The name of segment `i`, counting from 1: `name_%02d.mp4`. */
  function SegmentName(name: string, i: nat): string
  {
    name + "_" + Pad2(i) + ".mp4"
  }

  /** Different segment numbers give different segment names. */
  lemma SegmentNamesDistinct(name: string, i: nat, j: nat)
    ensures SegmentName(name, i) == SegmentName(name, j) ==> i == j
  {
    var a, b := SegmentName(name, i), SegmentName(name, j);
    if a == b {
      var p := |name| + 1;
      assert |Pad2(i)| == |Pad2(j)|;
      assert a[p..p + |Pad2(i)|] == Pad2(i);
      assert b[p..p + |Pad2(j)|] == Pad2(j);
      Pad2Injective(i, j);
    }
  }

  /** The paths `Cut` expects FFmpeg to have written, numbered 1 to `n`. */
  function Candidates(dstDir: string, name: string, n: nat): (cands: seq<string>)
    ensures |cands| == n
  {
    seq(n, i requires 0 <= i < n => Join(dstDir, SegmentName(name, i + 1)))
  }

  /** The FFmpeg command line of `Cut`. */
  function CutArgs(path: string, segmentTime: int, dstDir: string, name: string): seq<string>
  {
    ["-hide_banner", "-i", path, "-c", "copy", "-f", "segment",
     "-segment_time", FormatInt(segmentTime), "-reset_timestamps", "1",
     "-segment_start_number", "1", Join(dstDir, name + "_%02d.mp4")]
  }

  /** What `Cut` settles before it looks for segments. */
  datatype Plan = Plan(dstDir: string, name: string, n: nat, segmentTime: int)

  function NodeSize(node: Fs.Node): nat
  {
    if node.File? then |node.data| else 0
  }

  /** The steps of `Cut` up to and including the FFmpeg run: the target directory and its
      creation, the size of the video, its duration in seconds, the segment time (Go's
      integer division, which panics on an empty video), and FFmpeg's verdict. */
  function CutPlan(st: Fs.StatResult, path: string, maxSegSize: int, dstDir: string, mkdir: Option<string>,
                   duration: Result<int, string>, ffmpeg: seq<string> -> Option<string>): (r: Result<Plan, Error>)
    requires maxSegSize > 0
    ensures r.Ok? ==> && mkdir.None? && st.Found? && duration.Ok?
                      && r.value.n == SegmentCount(NodeSize(st.node), maxSegSize) && r.value.n > 0
                      && r.value.segmentTime == GoQuot(duration.value, r.value.n)
  {
    var dst := CutDstDir(path, dstDir);
    if mkdir.Some? then Err(MkdirFailed(mkdir.value))
    else if !st.Found? then Err(StatFailed(path))
    else
      var n := SegmentCount(NodeSize(st.node), maxSegSize);
      if duration.Err? then Err(DurationFailed(duration.error))
      else if n == 0 then Err(Panicked)
      else
        var segmentTime := GoQuot(duration.value, n);
        var name := Stem(path);
        match ffmpeg(CutArgs(path, segmentTime, dst, name))
        case Some(e) => Err(FfmpegFailed(e))
        case None => Ok(Plan(dst, name, n, segmentTime))
  }

  /** A planned cut has as many segments as the size calls for: the least number of
      segments of the maximal size that hold the whole file. */
  lemma CutPlanSegmentCount(st: Fs.StatResult, path: string, maxSegSize: int, dstDir: string, mkdir: Option<string>,
                            duration: Result<int, string>, ffmpeg: seq<string> -> Option<string>)
    requires maxSegSize > 0
    requires CutPlan(st, path, maxSegSize, dstDir, mkdir, duration, ffmpeg).Ok?
    ensures var n := CutPlan(st, path, maxSegSize, dstDir, mkdir, duration, ffmpeg).value.n;
      st.Found? && n >= 1 && NodeSize(st.node) <= n * maxSegSize && (n - 1) * maxSegSize < NodeSize(st.node)
  {
    SegmentCountIsCeiling(NodeSize(st.node), maxSegSize);
  }

  /** Each planned segment lasts the duration divided by their number, rounded down. */
  lemma CutPlanSegmentTime(st: Fs.StatResult, path: string, maxSegSize: int, dstDir: string, mkdir: Option<string>,
                           duration: Result<int, string>, ffmpeg: seq<string> -> Option<string>)
    requires maxSegSize > 0
    requires CutPlan(st, path, maxSegSize, dstDir, mkdir, duration, ffmpeg).Ok?
    requires duration.Ok? && duration.value >= 0
    ensures var p := CutPlan(st, path, maxSegSize, dstDir, mkdir, duration, ffmpeg).value;
      RoundedDown(p.segmentTime, duration.value, p.n)
  {
    var p := CutPlan(st, path, maxSegSize, dstDir, mkdir, duration, ffmpeg).value;
    var q, n, d := p.segmentTime, p.n, duration.value;
    assert q == GoQuot(d, n);
    QuotientBounds(d, n);
  }

  /** `q` is `d` divided by `n`, rounded down. */
  predicate RoundedDown(q: int, d: int, n: int)
  {
    q * n <= d < (q + 1) * n
  }

  lemma QuotientBounds(d: nat, n: nat)
    requires n > 0
    ensures RoundedDown(GoQuot(d, n), d, n)
  {
    var q := GoQuot(d, n);
    assert q == d / n;
    assert (q + 1) * n == q * n + n;
  }

  /** A video of no bytes whose duration is known makes `Cut` divide by zero. */
  lemma CutPlanEmptyVideo(path: string, maxSegSize: int, dstDir: string, seconds: int,
                          ffmpeg: seq<string> -> Option<string>)
    requires maxSegSize > 0
    ensures CutPlan(Fs.Found(Fs.File([])), path, maxSegSize, dstDir, None, Ok(seconds), ffmpeg) == Err(Panicked)
  {
    SegmentCountIsCeiling(0, maxSegSize);
  }

  /** A segment `Cut` keeps: a regular file of at least 512 KiB. Directories and other
      nodes count as small. */
  predicate Kept(st: Fs.StatResult)
  {
    st.Found? && st.node.File? && |st.node.data| >= MinSegment
  }

  /** The number of leading candidates that are kept. */
  function FirstUnkept(nodes: map<string, Fs.Node>, faulty: set<string>, cands: seq<string>): (k: nat)
    ensures k <= |cands|
    ensures forall j :: 0 <= j < k ==> Kept(Fs.StatOf(nodes, faulty, cands[j]))
    ensures k < |cands| ==> !Kept(Fs.StatOf(nodes, faulty, cands[k]))
  {
    if cands == [] then 0
    else if !Kept(Fs.StatOf(nodes, faulty, cands[0])) then 0
    else 1 + FirstUnkept(nodes, faulty, cands[1..])
  }

  /** The outcome of the segment scan of `Cut`: the longest prefix of kept candidates; the
      first candidate not kept is removed, unless it could not be examined at all, in which
      case Go dereferences a nil `FileInfo`. */
  ghost predicate Collected(nodes: map<string, Fs.Node>, faulty: set<string>, cands: seq<string>,
                            r: Result<seq<string>, Error>, after: map<string, Fs.Node>)
  {
    var k := FirstUnkept(nodes, faulty, cands);
    var failed := k < |cands| && Fs.StatOf(nodes, faulty, cands[k]).StatFailed?;
    && (r.Ok? <==> !failed)
    && (r.Ok? ==> r.value == cands[..k])
    && (r.Err? ==> r.error == Panicked)
    && after == (if k < |cands| && !failed then nodes - {cands[k]} else nodes)
  }

  /** The loop of `Cut` over the candidate segments. */
  method Collect(disk: Fs.Disk, cands: seq<string>) returns (r: Result<seq<string>, Error>)
    modifies disk`nodes
    ensures Collected(old(disk.nodes), disk.faulty, cands, r, disk.nodes)
  {
    var paths: seq<string> := [];
    var i := 0;
    while i < |cands|
      invariant 0 <= i <= |cands| && paths == cands[..i]
      invariant forall j :: 0 <= j < i ==> Kept(Fs.StatOf(disk.nodes, disk.faulty, cands[j]))
      invariant disk.nodes == old(disk.nodes)
    {
      var st := disk.Stat(cands[i]);
      if st.Missing? || (st.Found? && !(st.node.File? && |st.node.data| >= MinSegment)) {
        var ignored := disk.Remove(cands[i]);
        assert FirstUnkept(old(disk.nodes), disk.faulty, cands) == i;
        return Ok(paths);
      }
      if st.StatFailed? {
        assert FirstUnkept(old(disk.nodes), disk.faulty, cands) == i;
        return Err(Panicked);
      }
      paths := paths + [cands[i]];
      i := i + 1;
    }
    assert FirstUnkept(old(disk.nodes), disk.faulty, cands) == i;
    r := Ok(paths);
  }

  /** `Cut`: splits the video at `path` into segments of at most `maxSegSize` bytes, as far
      as FFmpeg's cut points allow, and returns the segments worth keeping. */
  method Cut(disk: Fs.Disk, path: string, maxSegSize: int, dstDir: string, mkdir: Option<string>,
             duration: Result<int, string>, ffmpeg: seq<string> -> Option<string>)
    returns (r: Result<seq<string>, Error>)
    requires maxSegSize > 0
    modifies disk`nodes
    ensures var plan := CutPlan(Fs.StatOf(old(disk.nodes), disk.faulty, path), path, maxSegSize, dstDir, mkdir, duration, ffmpeg);
      && (plan.Err? ==> r == Err(plan.error) && disk.nodes == old(disk.nodes))
      && (plan.Ok? ==> Collected(old(disk.nodes), disk.faulty, Candidates(plan.value.dstDir, plan.value.name, plan.value.n),
                                 r, disk.nodes))
  {
    var plan := CutPlan(disk.Stat(path), path, maxSegSize, dstDir, mkdir, duration, ffmpeg);
    if plan.Err? {
      return Err(plan.error);
    }
    r := Collect(disk, Candidates(plan.value.dstDir, plan.value.name, plan.value.n));
  }

  /** `Cut` never returns more paths than segments, and each is a segment path in order. */
  lemma CollectedPaths(nodes: map<string, Fs.Node>, faulty: set<string>, cands: seq<string>,
                       r: Result<seq<string>, Error>, after: map<string, Fs.Node>)
    requires Collected(nodes, faulty, cands, r, after)
    ensures r.Ok? ==> |r.value| <= |cands| && forall j :: 0 <= j < |r.value| ==>
      r.value[j] == cands[j] && Kept(Fs.StatOf(nodes, faulty, cands[j]))
    ensures r.Ok? && |r.value| < |cands| ==> cands[|r.value|] !in after
  {
  }

  /* ---------------------------------------------------------------------------------- */
  /* Concat                                                                               */

  /** A directory entry as `os.ReadDir` lists it. */
  datatype Entry = Entry(name: string, isDir: bool)

  predicate Qualifies(e: Entry, inputFormat: string)
  {
    !e.isDir && HasSuffix(e.name, inputFormat)
  }

  /** The list-file line of one segment. */
  function Line(dir: string, name: string): (line: string)
    ensures |line| > 0
  {
    "file '" + Join(dir, name) + "'\n"
  }

  /** The list file: one line per qualifying entry, in directory order. */
  function ListText(dir: string, entries: seq<Entry>, inputFormat: string): string
  {
    if entries == [] then ""
    else
      var e := entries[|entries| - 1];
      ListText(dir, entries[..|entries| - 1], inputFormat) + (if Qualifies(e, inputFormat) then Line(dir, e.name) else "")
  }

  /** The list is empty exactly when no entry qualifies: that is when `Concat` reports
      `ErrNoVideos`. */
  lemma {:induction false} ListTextEmpty(dir: string, entries: seq<Entry>, inputFormat: string)
    ensures ListText(dir, entries, inputFormat) == "" <==> forall k :: 0 <= k < |entries| ==> !Qualifies(entries[k], inputFormat)
  {
    if entries != [] {
      var init := entries[..|entries| - 1];
      ListTextEmpty(dir, init, inputFormat);
      assert forall k :: 0 <= k < |init| ==> init[k] == entries[k];
    }
  }

  /** The names of the qualifying entries, in order. */
  function Selected(entries: seq<Entry>, inputFormat: string): seq<string>
  {
    if entries == [] then []
    else
      var e := entries[|entries| - 1];
      Selected(entries[..|entries| - 1], inputFormat) + (if Qualifies(e, inputFormat) then [e.name] else [])
  }

  function Lines(dir: string, names: seq<string>): string
  {
    if names == [] then "" else Lines(dir, names[..|names| - 1]) + Line(dir, names[|names| - 1])
  }

  /** The list file is the lines of the selected entries, nothing more and in order. */
  lemma {:induction false} ListTextIsSelectedLines(dir: string, entries: seq<Entry>, inputFormat: string)
    ensures ListText(dir, entries, inputFormat) == Lines(dir, Selected(entries, inputFormat))
  {
    if entries != [] {
      var init := entries[..|entries| - 1];
      var e := entries[|entries| - 1];
      ListTextIsSelectedLines(dir, init, inputFormat);
      var s := Selected(init, inputFormat);
      if Qualifies(e, inputFormat) {
        assert (s + [e.name])[..|s|] == s;
      } else {
        assert s + [] == s;
      }
    }
  }

  /** The loop of `Concat` that builds the list file. */
  method ListFile(dir: string, files: seq<Entry>, inputFormat: string) returns (videosPath: string)
    ensures videosPath == ListText(dir, files, inputFormat)
  {
    videosPath := "";
    var i := 0;
    while i < |files|
      invariant 0 <= i <= |files|
      invariant videosPath == ListText(dir, files[..i], inputFormat)
    {
      var file := files[i];
      assert ListText(dir, files[..i + 1], inputFormat)
          == videosPath + (if Qualifies(file, inputFormat) then Line(dir, file.name) else "") by {
        assert files[..i + 1][..i] == files[..i];
      }
      if !file.isDir && HasSuffix(file.name, inputFormat) {
        videosPath := videosPath + ("file '" + Join(dir, file.name) + "'\n");
      }
      i := i + 1;
    }
    assert files[..i] == files;
  }

  /** The FFmpeg command line of `Concat`. */
  function ConcatArgs(listPath: string, outputPath: string): seq<string>
  {
    ["-hide_banner", "-f", "concat", "-safe", "0", "-i", listPath, "-c", "copy", outputPath]
  }

  /** `Concat`: lists the segments in `dir` with the suffix `inputFormat`, writes the list
      to `files_<ms>.txt` and has FFmpeg join them into `output_<ms><outputFormat>`. The
      two millisecond clocks are parameters, as are the directory listing, `os.WriteFile`
      and the FFmpeg run. */
  method Concat(dir: string, inputFormat: string, outputFormat: string, listing: Result<seq<Entry>, string>,
                listMs: int, outMs: int, writeFile: (string, string) -> Option<string>,
                ffmpeg: seq<string> -> Option<string>)
    returns (r: Result<string, Error>)
    ensures listing.Err? ==> r == Err(ReadDirFailed(listing.error))
    ensures listing.Ok? ==>
      var text := ListText(dir, listing.value, inputFormat);
      var listPath := Join(dir, "files_" + FormatInt(listMs) + ".txt");
      var outputPath := Join(dir, "output_" + FormatInt(outMs) + outputFormat);
      && (text == "" ==> r == Err(NoVideos))
      && (text != "" && writeFile(listPath, text).Some? ==> r == Err(WriteFailed(writeFile(listPath, text).value)))
      && (text != "" && writeFile(listPath, text).None? ==>
            r == match ffmpeg(ConcatArgs(listPath, outputPath))
                 case Some(e) => Err(FfmpegFailed(e))
                 case None => Ok(outputPath))
  {
    if listing.Err? {
      return Err(ReadDirFailed(listing.error));
    }
    var videosPath := ListFile(dir, listing.value, inputFormat);
    if videosPath == "" {
      return Err(NoVideos);
    }
    var listFilePath := Join(dir, "files_" + FormatInt(listMs) + ".txt");
    var e := writeFile(listFilePath, videosPath);
    if e.Some? {
      return Err(WriteFailed(e.value));
    }
    var outputPath := Join(dir, "output_" + FormatInt(outMs) + outputFormat);
    var run := ffmpeg(ConcatArgs(listFilePath, outputPath));
    if run.Some? {
      return Err(FfmpegFailed(run.value));
    }
    r := Ok(outputPath);
  }

  /* ---------------------------------------------------------------------------------- */
  /* Convt                                                                                */

  /** `Convt`'s target: `dstPath` unless it is blank; then the path with its extension
      replaced by ".mp4", which is refused when the video already has that extension in
      any case. */
  function ConvtTarget(path: string, dstPath: string): Result<string, Error>
  {
    if TrimSpace(dstPath) == "" then
      var ext := PathUtil.Ext(path);
      if ToLower(ext) == ".mp4" then Err(AlreadyMp4)
      else Ok(TrimSuffix(path, ext) + ".mp4")
    else Ok(dstPath)
  }

  /** The default target is a different path with the extension ".mp4"; it is refused
      exactly when the video's extension is ".mp4" in some case. */
  lemma ConvtDefaultTarget(path: string, dstPath: string)
    requires TrimSpace(dstPath) == ""
    ensures ConvtTarget(path, dstPath).Err? <==> ToLower(PathUtil.Ext(path)) == ".mp4"
    ensures ConvtTarget(path, dstPath).Ok? ==>
      var t := ConvtTarget(path, dstPath).value;
      HasSuffix(t, ".mp4") && t != path && HasPrefix(t, TrimSuffix(path, PathUtil.Ext(path)))
  {
    var ext := PathUtil.Ext(path);
    var stem := TrimSuffix(path, ext);
    if ToLower(ext) != ".mp4" {
      var t := stem + ".mp4";
      assert ext != ".mp4" by { LowerMp4(); }
      assert stem + ext == path by {
        if ext == "" { assert HasSuffix(path, ext); }
      }
      assert t != path by {
        assert t[|stem|..] == ".mp4";
        assert path[|stem|..] == ext;
      }
      assert HasSuffix(t, ".mp4") by { assert t[|t| - 4..] == ".mp4"; }
      assert HasPrefix(t, stem) by { assert t[..|stem|] == stem; }
    }
  }

  /** ".mp4" is already lower case. */
  lemma LowerMp4()
    ensures ToLower(".mp4") == ".mp4"
  {
    var r := ToLower(".mp4");
    assert r[0] == '.' && r[1] == 'm' && r[2] == 'p' && r[3] == '4';
  }

  /** An explicit target is passed through as it is. */
  lemma ConvtExplicitTarget(path: string, dstPath: string)
    requires exists k :: 0 <= k < |dstPath| && !IsSpace(dstPath[k])
    ensures ConvtTarget(path, dstPath) == Ok(dstPath)
  {
    TrimSpaceBlank(dstPath);
  }

  /** `Convt`: FFmpeg copies the streams of `path` into the target. */
  function Convt(path: string, dstPath: string, ffmpeg: seq<string> -> Option<string>): (err: Option<Error>)
    ensures ConvtTarget(path, dstPath).Err? ==> err == Some(ConvtTarget(path, dstPath).error)
  {
    match ConvtTarget(path, dstPath)
    case Err(e) => Some(e)
    case Ok(t) =>
      match ffmpeg(["-hide_banner", "-i", path, "-c", "copy", t])
      case Some(m) => Some(FfmpegFailed(m))
      case None => None
  }

  /* ---------------------------------------------------------------------------------- */
  /* GetResolution                                                                        */

  datatype Resolution = Resolution(width: int, height: int)

  /** `GetResolution` as written: ffprobe's "WxH" is split on 'x' and both halves are read
      as integers; when there is no 'x' and the text is a number, the second half is read
      past the end of the split and Go panics. */
  function GetResolutionAsWritten(output: string): Result<Resolution, Error>
  {
    var dims := Split(TrimSpace(output), 'x');
    match Atoi(dims[0])
    case None => Err(BadWidth(dims[0]))
    case Some(w) =>
      if |dims| < 2 then Err(Panicked)
      else match Atoi(dims[1])
        case None => Err(BadHeight(dims[1]))
        case Some(h) => Ok(Resolution(w, h))
  }

  /** `GetResolution`, with a missing height read as the empty text, which is not a number. */
  function GetResolution(output: string): (r: Result<Resolution, Error>)
    ensures r.Err? ==> r.error.BadWidth? || r.error.BadHeight?
    ensures r.Ok? ==> 'x' in TrimSpace(output)
  {
    var dims := Split(TrimSpace(output), 'x');
    var heightText := if |dims| >= 2 then dims[1] else "";
    match Atoi(dims[0])
    case None => Err(BadWidth(dims[0]))
    case Some(w) =>
      match Atoi(heightText)
      case None => Err(BadHeight(heightText))
      case Some(h) =>
        assert |dims| >= 2;
        assert IndexOf(TrimSpace(output), 'x') >= 0;
        Ok(Resolution(w, h))
  }

  lemma ReadsBareNumber()
    ensures Atoi("1920") == Some(1920) && Atoi("") == None
  {
    var s := "1920";
    assert AllDigits(s);
    assert s[..3] == "192" && s[..2] == "19" && s[..1] == "1" && s[..0] == "";
    assert DigitsValue("1") == 1;
    assert DigitsValue("19") == 19;
    assert DigitsValue("192") == 192;
  }

  lemma SplitsBareNumber()
    ensures Split(TrimSpace("1920\n"), 'x') == ["1920"]
  {
    TrimSpaceLine("1920");
    assert "1920" + "\n" == "1920\n";
    assert IndexOf("1920", 'x') == -1;
    assert Split("1920", 'x') == ["1920"];
  }

  /** A bare number (ffprobe printing a width only) panics as written and is a height error
      once corrected. */
  lemma GetResolutionBareNumber()
    ensures GetResolutionAsWritten("1920\n") == Err(Panicked)
    ensures GetResolution("1920\n") == Err(BadHeight(""))
  {
    ReadsBareNumber();
    SplitsBareNumber();
  }

  lemma FormatIntNoX(i: int)
    ensures 'x' !in FormatInt(i) && !IsSpace(FormatInt(i)[0]) && !IsSpace(FormatInt(i)[|FormatInt(i)| - 1])
  {
    var s := FormatInt(i);
    var d := if i < 0 then Itoa(-i) else Itoa(i);
    assert AllDigits(d);
    assert forall k :: 0 <= k < |s| ==> IsDigit(s[k]) || s[k] == '-' by {
      if i < 0 {
        assert forall k :: 1 <= k < |s| ==> s[k] == d[k - 1];
      }
    }
  }

  lemma TrimLeftNoop(t: string)
    requires |t| > 0 && !IsSpace(t[0])
    ensures TrimLeftSpace(t) == t
  {
  }

  lemma TrimRightNewline(s: string)
    requires |s| > 0 && !IsSpace(s[|s| - 1])
    ensures TrimRightSpace(s + "\n") == s
  {
    var t := s + "\n";
    assert t[..|t| - 1] == s;
  }

  /** A line whose ends are not spaces is itself once trimmed. */
  lemma TrimSpaceLine(s: string)
    requires |s| > 0 && !IsSpace(s[0]) && !IsSpace(s[|s| - 1])
    ensures TrimSpace(s + "\n") == s
  {
    TrimLeftNoop(s + "\n");
    TrimRightNewline(s);
  }

  lemma SplitPair(a: string, b: string)
    requires 'x' !in a && 'x' !in b
    ensures Split(a + "x" + b, 'x') == [a, b]
  {
    var s := a + "x" + b;
    IndexOfJoin(a, b, 'x');
    assert s[..|a|] == a && s[|a| + 1..] == b;
    assert Split(b, 'x') == [b];
  }

  /** ffprobe's "WxH" line reads back as the width and height it printed. */
  lemma GetResolutionReadsBack(w: int, h: int)
    requires Int64Min <= w <= Int64Max && Int64Min <= h <= Int64Max
    ensures GetResolution(FormatInt(w) + "x" + FormatInt(h) + "\n") == Ok(Resolution(w, h))
  {
    var a, b := FormatInt(w), FormatInt(h);
    var s := a + "x" + b;
    FormatIntNoX(w);
    FormatIntNoX(h);
    assert s[0] == a[0] && s[|s| - 1] == b[|b| - 1];
    TrimSpaceLine(s);
    SplitPair(a, b);
    AtoiFormatInt(w);
    AtoiFormatInt(h);
  }
}
