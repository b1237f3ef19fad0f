/** Package `dolive`: records a live stream to disk. `Capture` reads the response body
    through a 1 MiB buffer and appends every chunk to the current file. With a size limit
    (`FLSize` > 0), a new file is started once the bytes written so far exceed the limit
    times the number of files; the first file `name.fmt` is then renamed `name_01.fmt` and
    later ones are `name_02.fmt`, `name_03.fmt`, and so on.

    The operating system's files are a `Disk`; `Capture`'s effect is specified by the pure
    functions `CaptureSpec`, `LoopSpec`, `ChunkSpec` and `CreateSpec` over `Rec`, the record
    of the fields the capture changes together with the disk's files. */
module DoLive {
  import opened Wrappers
  import opened Strs
  import opened PathUtil
  import opened Streams
  import opened Fs
  import DoHttp

  /** The capture buffer: `1 << 20` bytes. */
  const BufSize: nat := 0x10_0000

  datatype Error =
    | Transport(msg: string)
    | BadStatus(status: int)
    | ReadFailed(msg: string)
    | DiskFailed(err: FsError)

  /** An HTTP response: its status code and the successive `Read` calls on its body. */
  datatype Response = Response(status: int, body: seq<ReadResult>)

  /** The fields `New` derives from the output path, and the size limit (0: none). */
  datatype Layout = Layout(dir: string, name: string, format: string, flSize: int)

  /** The paths whose operations fail, and the files that refuse writes. */
  datatype Faults = Faults(faulty: set<string>, unwritable: set<string>)

  /* ---------------------------------------------------------------------------------- */
  /* Output path and segment names                                                       */

  /** What `New` derives from the output path: directory, name and format. */
  datatype Parts = Parts(dir: string, name: string, format: string)

  /** `New` as written: the name is the base name with every trailing character that occurs
      in the extension cut away (`strings.TrimRight` takes a set of characters). */
  function SplitOutputPathAsWritten(path: string): Parts
  {
    var ext := Ext(path);
    Parts(PathUtil.Dir(path), TrimRightSet(Base(path), ext), RemoveFirst(ext, '.'))
  }

  /** `New` as intended: the name is the base name without its extension. */
  function SplitOutputPath(path: string): Parts
  {
    var ext := Ext(path);
    Parts(PathUtil.Dir(path), TrimSuffix(Base(path), ext), RemoveFirst(ext, '.'))
  }

  lemma ShellExt()
    ensures Ext("shell.flv") == ".flv"
  {
    var p := "shell.flv";
    assert p[5] == '.';
    assert forall k :: 5 < k < |p| ==> p[k] != '.';
    assert forall k :: 0 <= k < |p| ==> p[k] != '/';
  }

  lemma ShellBase()
    ensures Base("shell.flv") == "shell.flv"
  {
    var p := "shell.flv";
    assert forall k :: 0 <= k < |p| ==> p[k] != '/';
    assert TrimTrailingSeps(p) == p;
  }

  lemma ShellTrimRight()
    ensures TrimRightSet("shell.flv", ".flv") == "she"
  {
    var p, cut := "shell.flv", ".flv";
    var r := TrimRightSet(p, cut);
    assert p[2] !in cut;
    assert forall k :: 3 <= k < |p| ==> p[k] in cut;
    assert |r| == 3;
    assert r == p[..3];
  }

  lemma ShellTrimSuffix()
    ensures TrimSuffix("shell.flv", ".flv") == "shell"
  {
    var p := "shell.flv";
    assert p[|p| - 4..] == ".flv";
  }

  /** A base name ending in characters of its own extension loses them as written:
      "shell.flv" gives the name "she" where "shell" is meant. */
  lemma SplitOutputPathAsWrittenLosesName()
    ensures SplitOutputPathAsWritten("shell.flv").name == "she"
    ensures SplitOutputPath("shell.flv").name == "shell"
  {
    ShellExt();
    ShellBase();
    ShellTrimRight();
    ShellTrimSuffix();
  }

  lemma BaseEndsWithExt(path: string)
    requires Ext(path) != ""
    ensures HasSuffix(Base(path), Ext(path))
  {
    var d := LastIndex(path, '.');
    var s := LastIndex(path, Sep);
    assert d > s && Ext(path) == path[d..];
    assert path[|path| - 1] != Sep;
    assert TrimTrailingSeps(path) == path;
    var b := path[s + 1..];
    assert Base(path) == b;
    assert b[|b| - (|path| - d)..] == path[d..];
  }

  lemma RemoveLeadingDot(ext: string)
    requires ext != "" && ext[0] == '.'
    ensures "." + RemoveFirst(ext, '.') == ext
  {
    assert IndexOf(ext, '.') == 0;
    assert ext[..0] + ext[1..] == ext[1..];
  }

  /** With the intended split, name, "." and format give back the base name whenever the
      path has an extension. */
  lemma SplitOutputPathRoundTrip(path: string)
    requires Ext(path) != ""
    ensures var r := SplitOutputPath(path); r.name + "." + r.format == Base(path)
  {
    var ext := Ext(path);
    var r := SplitOutputPath(path);
    assert r.name + ext == Base(path) by { BaseEndsWithExt(path); }
    assert "." + r.format == ext by { RemoveLeadingDot(ext); }
    JoinBack(r.name, ext, r.format, Base(path));
  }

  lemma JoinBack(name: string, ext: string, format: string, base: string)
    requires name + ext == base && "." + format == ext
    ensures name + "." + format == base
  {
    assert name + "." + format == name + ("." + format);
  }

  function Stem(l: Layout): string
  {
    Join(l.dir, l.name)
  }

  /** The path of the only file: `dir/name.fmt`. */
  function SinglePath(l: Layout): string
  {
    Stem(l) + "." + l.format
  }

  /** The path of segment `k` (counted from 1) once there are several: `dir/name_%02d.fmt`. */
  function SegPath(l: Layout, k: nat): string
  {
    Stem(l) + "_" + Pad2(k) + "." + l.format
  }

  /** Different segment numbers give different paths. */
  lemma SegPathInjective(l: Layout, i: nat, j: nat)
    requires i != j
    ensures SegPath(l, i) != SegPath(l, j)
  {
    if SegPath(l, i) == SegPath(l, j) {
      var a, b := Pad2(i), Pad2(j);
      var n := |Stem(l)| + 1;
      assert |a| == |b|;
      assert SegPath(l, i)[n..n + |a|] == a;
      assert SegPath(l, j)[n..n + |b|] == b;
      Pad2Injective(i, j);
    }
  }

  /** No segment path is the single-file path: they differ right after the stem. */
  lemma SegPathNotSingle(l: Layout, k: nat)
    ensures SegPath(l, k) != SinglePath(l)
  {
    var n := |Stem(l)|;
    assert SegPath(l, k)[n] == '_';
    assert SinglePath(l)[n] == '.';
  }

  /** The naming rule: no file yet, the single file, or the numbered segments 1..k. */
  predicate Named(l: Layout, paths: seq<string>)
  {
    || paths == []
    || (|paths| == 1 && paths[0] == SinglePath(l))
    || forall k :: 0 <= k < |paths| ==> paths[k] == SegPath(l, k + 1)
  }

  predicate Distinct(paths: seq<string>)
  {
    forall i, j :: 0 <= i < j < |paths| ==> paths[i] != paths[j]
  }

  lemma NamedDistinct(l: Layout, paths: seq<string>)
    requires Named(l, paths)
    ensures Distinct(paths)
  {
    if paths != [] && !(|paths| == 1 && paths[0] == SinglePath(l)) {
      NumberedDistinct(l, paths);
    }
  }

  lemma NumberedDistinct(l: Layout, paths: seq<string>)
    requires forall k :: 0 <= k < |paths| ==> paths[k] == SegPath(l, k + 1)
    ensures Distinct(paths)
  {
    forall i, j | 0 <= i < j < |paths|
      ensures paths[i] != paths[j]
    {
      SegPathInjective(l, i + 1, j + 1);
    }
  }

  /* ---------------------------------------------------------------------------------- */
  /* The specification of a capture                                                      */

  /** The capture's fields and the disk's files: `Paths`, `Total`, the files, and whether
      `Cur` is an open handle. */
  datatype Rec = Rec(paths: seq<string>, total: int, nodes: map<string, Node>, curOpen: bool)

  datatype Step = Step(st: Rec, err: Option<Error>)

  /** The state after a run of reads, its error, and how many chunks were written. */
  datatype Run = Run(st: Rec, err: Option<Error>, written: nat)

  function Data(nodes: map<string, Node>, p: string): Bytes
  {
    if p in nodes && nodes[p].File? then nodes[p].data else []
  }

  /** The bytes the files in `paths` hold, in order. */
  function Recorded(nodes: map<string, Node>, paths: seq<string>): Bytes
  {
    if paths == [] then [] else Recorded(nodes, paths[..|paths| - 1]) + Data(nodes, paths[|paths| - 1])
  }

  /** The invariant of a capture: files named by the rule, each present as a regular file,
      `Total` counting exactly the bytes they hold, and once the files are numbered, no
      file left under the single-file name. */
  ghost predicate Consistent(l: Layout, st: Rec)
  {
    && Named(l, st.paths)
    && (forall k :: 0 <= k < |st.paths| ==> st.paths[k] in st.nodes && st.nodes[st.paths[k]].File?)
    && st.total == |Recorded(st.nodes, st.paths)|
    && (|st.paths| >= 1 && st.paths[0] == SegPath(l, 1) ==> SinglePath(l) !in st.nodes)
  }

  /** The rotation rule of `Capture`: a new file before the first chunk, and before any chunk
      once the bytes written exceed the limit times the number of files. */
  predicate NeedsRotate(l: Layout, total: int, count: nat)
  {
    count == 0 || (l.flSize != 0 && total > l.flSize * count)
  }

  function OpenSegment(f: Faults, st: Rec, p: string): Step
  {
    match OpenError(st.nodes, f.faulty, p)
    case Some(e) => Step(st, Some(DiskFailed(e)))
    case None => Step(st.(nodes := st.nodes[p := File([])], paths := st.paths + [p], curOpen := true), None)
  }

  /** `createFileStream`: close the current file; on the second file, rename the first to
      number 01 (`Paths[0]` follows); then create and truncate the next file and append it. */
  function CreateSpec(l: Layout, f: Faults, st: Rec): Step
  {
    var closed := st.(curOpen := false);
    var k := |st.paths|;
    if k == 0 then OpenSegment(f, closed, SinglePath(l))
    else if k == 1 then SecondSegment(l, f, closed)
    else OpenSegment(f, closed, SegPath(l, k + 1))
  }

  /** `createFileStream` starts by closing, so it does the same from a closed state. */
  lemma CreateClosedFirst(l: Layout, f: Faults, st: Rec)
    ensures CreateSpec(l, f, st.(curOpen := false)) == CreateSpec(l, f, st)
  {
  }

  /** The second file: the single file is renamed to number 01, then number 02 is opened. */
  function SecondSegment(l: Layout, f: Faults, closed: Rec): Step
  {
    match RenameError(closed.nodes, f.faulty, SinglePath(l), SegPath(l, 1))
    case Some(e) => Step(closed, Some(DiskFailed(e)))
    case None =>
      var moved := closed.(nodes := Renamed(closed.nodes, SinglePath(l), SegPath(l, 1)), paths := [SegPath(l, 1)]);
      OpenSegment(f, moved, SegPath(l, 2))
  }

  /** `io.Copy(l.Cur, ...)`: appends the chunk to the last file through the current handle. */
  function WriteSpec(f: Faults, st: Rec, data: Bytes): Step
  {
    if !st.curOpen || st.paths == [] then Step(st, Some(DiskFailed(NotOpen)))
    else
      var p := st.paths[|st.paths| - 1];
      match WriteError(st.nodes, f.unwritable, p)
      case Some(e) => Step(st, Some(DiskFailed(e)))
      case None => Step(st.(nodes := st.nodes[p := File(st.nodes[p].data + data)]), None)
  }

  /** One pass of the loop with a chunk in hand: rotate if the rule says so, write, count. */
  function ChunkSpec(l: Layout, f: Faults, st: Rec, data: Bytes): Step
  {
    var s1 := if NeedsRotate(l, st.total, |st.paths|) then CreateSpec(l, f, st) else Step(st, None);
    if s1.err.Some? then s1
    else
      var s2 := WriteSpec(f, s1.st, data);
      if s2.err.Some? then s2 else Step(s2.st.(total := s2.st.total + |data|), None)
  }

  /** `return err` after a negative count: that error, which may be nil. */
  function ReadError(e: Option<string>): Option<Error>
  {
    match e
    case None => None
    case Some(m) => Some(ReadFailed(m))
  }

  /** The read loop of `Capture`: a negative count returns the read's error, a zero count
      ends the loop, and every positive count is a chunk for `ChunkSpec`. */
  function LoopSpec(l: Layout, f: Faults, st: Rec, body: seq<ReadResult>): Run
    decreases |body|
  {
    if body == [] then Run(st, None, 0)
    else
      var r := body[0];
      if r.n < 0 then Run(st, ReadError(r.err), 0)
      else if r.n == 0 then Run(st, None, 0)
      else
        var s := ChunkSpec(l, f, st, r.data);
        if s.err.Some? then Run(s.st, s.err, 0)
        else
          var rest := LoopSpec(l, f, s.st, body[1..]);
          rest.(written := rest.written + 1)
  }

  /** The scan from call `i` on, when that call delivers bytes: the chunk's step, then the
      scan from the next call. */
  lemma LoopSpecStep(l: Layout, f: Faults, st: Rec, body: seq<ReadResult>, i: nat)
    requires i < |body| && body[i].n > 0
    ensures var s := ChunkSpec(l, f, st, body[i].data);
      && (s.err.Some? ==> LoopSpec(l, f, st, body[i..]) == Run(s.st, s.err, 0))
      && (s.err.None? ==> var rest := LoopSpec(l, f, s.st, body[i + 1..]);
            LoopSpec(l, f, st, body[i..]) == rest.(written := rest.written + 1))
  {
    assert body[i..][0] == body[i] && body[i..][1..] == body[i + 1..];
  }

  /** The scan from call `i` on, when that call ends it: end of file, or a read error. */
  lemma LoopSpecStop(l: Layout, f: Faults, st: Rec, body: seq<ReadResult>, i: nat)
    requires i <= |body| && ReadAt(body, i).n <= 0
    ensures LoopSpec(l, f, st, body[i..]) == Run(st, if ReadAt(body, i).n < 0 then ReadError(ReadAt(body, i).err) else None, 0)
  {
    if i < |body| {
      assert body[i..][0] == body[i];
    }
  }

  /** The read loop's invariant across a call that delivers bytes: a failed chunk ends the
      scan with the chunk's state and error, otherwise the scan goes on from the next call. */
  lemma LoopAdvance(l: Layout, f: Faults, st: Rec, body: seq<ReadResult>, i: nat, whole: Run)
    requires i < |body| && body[i].n > 0
    requires var run := LoopSpec(l, f, st, body[i..]); whole == run.(written := run.written + i)
    ensures var s := ChunkSpec(l, f, st, body[i].data);
      && (s.err.Some? ==> whole.st == s.st && whole.err == s.err)
      && (s.err.None? ==> var run := LoopSpec(l, f, s.st, body[i + 1..]); whole == run.(written := run.written + i + 1))
  {
    LoopSpecStep(l, f, st, body, i);
  }

  /** The read loop's invariant at a call that ends the scan. */
  lemma LoopStop(l: Layout, f: Faults, st: Rec, body: seq<ReadResult>, i: nat, whole: Run)
    requires i <= |body| && ReadAt(body, i).n <= 0
    requires var run := LoopSpec(l, f, st, body[i..]); whole == run.(written := run.written + i)
    ensures whole.st == st && whole.err == (if ReadAt(body, i).n < 0 then ReadError(ReadAt(body, i).err) else None)
  {
    LoopSpecStop(l, f, st, body, i);
  }

  /** `Capture`: a failed request returns before anything else happens; from then on the
      deferred `closeCurFile` closes the current file on every return. */
  function CaptureSpec(l: Layout, f: Faults, st: Rec, resp: Result<Response, string>): Run
  {
    match resp
    case Err(m) => Run(st, Some(Transport(m)), 0)
    case Ok(r) =>
      if !DoHttp.CheckCode(r.status) then Run(st.(curOpen := false), Some(BadStatus(r.status)), 0)
      else
        var run := LoopSpec(l, f, st, r.body);
        run.(st := run.st.(curOpen := false))
  }

  /* ---------------------------------------------------------------------------------- */
  /* Properties of the specification                                                     */

  lemma {:induction false} RecordedSame(n1: map<string, Node>, n2: map<string, Node>, paths: seq<string>)
    requires forall k :: 0 <= k < |paths| ==> Data(n1, paths[k]) == Data(n2, paths[k])
    ensures Recorded(n1, paths) == Recorded(n2, paths)
    decreases |paths|
  {
    if paths != [] {
      RecordedSame(n1, n2, paths[..|paths| - 1]);
    }
  }

  lemma RecordedSnoc(nodes: map<string, Node>, paths: seq<string>, p: string)
    ensures Recorded(nodes, paths + [p]) == Recorded(nodes, paths) + Data(nodes, p)
  {
    assert (paths + [p])[..|paths|] == paths;
  }

  /** Creating a file that is not one of the segments leaves what they hold alone. */
  lemma RecordedFresh(nodes: map<string, Node>, paths: seq<string>, p: string, node: Node)
    requires p !in paths
    ensures Recorded(nodes[p := node], paths) == Recorded(nodes, paths)
  {
    RecordedSame(nodes[p := node], nodes, paths);
  }

  /** Appending to the last segment appends to what the segments hold. */
  lemma RecordedAppendLast(nodes: map<string, Node>, paths: seq<string>, data: Bytes)
    requires paths != [] && Distinct(paths)
    requires paths[|paths| - 1] in nodes && nodes[paths[|paths| - 1]].File?
    ensures var p := paths[|paths| - 1];
      Recorded(nodes[p := File(nodes[p].data + data)], paths) == Recorded(nodes, paths) + data
  {
    var p := paths[|paths| - 1];
    var init := paths[..|paths| - 1];
    var n2 := nodes[p := File(nodes[p].data + data)];
    assert paths == init + [p];
    assert p !in init by {
      forall k | 0 <= k < |init| ensures init[k] != p {
        assert init[k] == paths[k];
      }
    }
    RecordedSnoc(n2, init, p);
    RecordedSnoc(nodes, init, p);
    RecordedFresh(nodes, init, p, File(nodes[p].data + data));
  }

  lemma SegPathsFresh(l: Layout, paths: seq<string>, k: nat)
    requires forall i :: 0 <= i < |paths| ==> paths[i] == SegPath(l, i + 1)
    requires k > |paths|
    ensures SegPath(l, k) !in paths
  {
    forall i | 0 <= i < |paths| ensures paths[i] != SegPath(l, k) {
      SegPathInjective(l, i + 1, k);
    }
  }

  lemma SegPathsNotSingle(l: Layout, paths: seq<string>)
    requires forall i :: 0 <= i < |paths| ==> paths[i] == SegPath(l, i + 1)
    ensures SinglePath(l) !in paths
  {
    forall i | 0 <= i < |paths| ensures paths[i] != SinglePath(l) {
      SegPathNotSingle(l, i + 1);
    }
  }

  /** Opening the next file keeps the invariant when its name extends the naming rule. */
  lemma OpenSegmentKeeps(l: Layout, f: Faults, st: Rec, p: string)
    requires Named(l, st.paths + [p]) && p !in st.paths
    requires forall k :: 0 <= k < |st.paths| ==> st.paths[k] in st.nodes && st.nodes[st.paths[k]].File?
    requires st.total == |Recorded(st.nodes, st.paths)|
    requires (st.paths + [p])[0] == SegPath(l, 1) ==> SinglePath(l) !in st.nodes && p != SinglePath(l)
    ensures var s := OpenSegment(f, st, p);
      && (s.err.Some? ==> s.st == st)
      && (s.err.None? ==> Consistent(l, s.st) && s.st.curOpen && s.st.paths == st.paths + [p]
                          && Recorded(s.st.nodes, s.st.paths) == Recorded(st.nodes, st.paths)
                          && s.st.total == st.total && Data(s.st.nodes, p) == [])
  {
    if OpenError(st.nodes, f.faulty, p).None? {
      var n2 := st.nodes[p := File([])];
      RecordedFresh(st.nodes, st.paths, p, File([]));
      RecordedSnoc(n2, st.paths, p);
      var paths := st.paths + [p];
      assert forall k :: 0 <= k < |paths| ==> paths[k] in n2 && n2[paths[k]].File? by {
        forall k | 0 <= k < |paths| ensures paths[k] in n2 && n2[paths[k]].File? {
          if k < |st.paths| { assert paths[k] == st.paths[k]; }
        }
      }
    }
  }

  /** Renaming the single file to number 01 keeps the invariant and what is recorded. */
  lemma RenameFirstKeeps(l: Layout, f: Faults, st: Rec)
    requires Consistent(l, st) && |st.paths| == 1
    requires RenameError(st.nodes, f.faulty, SinglePath(l), SegPath(l, 1)).None?
    ensures var moved := st.(nodes := Renamed(st.nodes, SinglePath(l), SegPath(l, 1)), paths := [SegPath(l, 1)]);
      && Consistent(l, moved)
      && Recorded(moved.nodes, moved.paths) == Recorded(st.nodes, st.paths)
  {
    var single, seg1 := SinglePath(l), SegPath(l, 1);
    SegPathNotSingle(l, 1);
    assert st.paths == [single];
    var n1 := Renamed(st.nodes, single, seg1);
    assert Recorded(n1, [seg1]) == Recorded(st.nodes, [single]) by {
      RecordedSnoc(n1, [], seg1);
      RecordedSnoc(st.nodes, [], single);
      assert [seg1] == [] + [seg1];
      assert [single] == [] + [single];
      assert Data(n1, seg1) == Data(st.nodes, single);
    }
    assert Named(l, [seg1]);
    assert seg1 in n1 && n1[seg1].File? && single !in n1;
  }

  /** What `createFileStream` guarantees: the invariant, the bytes recorded unchanged, at
      most one more file, and on success the new last file open and empty. */
  ghost predicate CreateOutcome(l: Layout, st: Rec, s: Step)
  {
    && Consistent(l, s.st)
    && s.st.total == st.total
    && Recorded(s.st.nodes, s.st.paths) == Recorded(st.nodes, st.paths)
    && |st.paths| <= |s.st.paths| <= |st.paths| + 1
    && (s.err.None? <==> |s.st.paths| == |st.paths| + 1)
    && (s.err.None? ==> s.st.curOpen && Data(s.st.nodes, s.st.paths[|s.st.paths| - 1]) == [])
    && (s.err.Some? ==> !s.st.curOpen)
  }

  lemma CreateFirstKeeps(l: Layout, f: Faults, st: Rec)
    requires Consistent(l, st) && st.paths == []
    ensures CreateOutcome(l, st, CreateSpec(l, f, st))
  {
    SegPathNotSingle(l, 1);
    OpenSegmentKeeps(l, f, st.(curOpen := false), SinglePath(l));
  }

  /** After the single file is renamed to number 01, the state is consistent, holds the same
      bytes, and number 02 is a fresh, well-named next file. */
  lemma MovedKeeps(l: Layout, f: Faults, closed: Rec)
    requires Consistent(l, closed) && |closed.paths| == 1 && !closed.curOpen
    requires RenameError(closed.nodes, f.faulty, SinglePath(l), SegPath(l, 1)).None?
    ensures var moved := closed.(nodes := Renamed(closed.nodes, SinglePath(l), SegPath(l, 1)), paths := [SegPath(l, 1)]);
      && Consistent(l, moved) && Recorded(moved.nodes, moved.paths) == Recorded(closed.nodes, closed.paths)
      && SegPath(l, 2) !in moved.paths && SegPath(l, 2) != SinglePath(l)
      && Named(l, moved.paths + [SegPath(l, 2)])
  {
    var moved := closed.(nodes := Renamed(closed.nodes, SinglePath(l), SegPath(l, 1)), paths := [SegPath(l, 1)]);
    RenameFirstKeeps(l, f, closed);
    SegPathInjective(l, 1, 2);
    SegPathNotSingle(l, 2);
    var two := moved.paths + [SegPath(l, 2)];
    assert forall i :: 0 <= i < |two| ==> two[i] == SegPath(l, i + 1);
  }

  lemma CreateSecondKeeps(l: Layout, f: Faults, st: Rec)
    requires Consistent(l, st) && |st.paths| == 1
    ensures CreateOutcome(l, st, CreateSpec(l, f, st))
  {
    var closed := st.(curOpen := false);
    var e := RenameError(closed.nodes, f.faulty, SinglePath(l), SegPath(l, 1));
    if e.None? {
      var moved := closed.(nodes := Renamed(closed.nodes, SinglePath(l), SegPath(l, 1)), paths := [SegPath(l, 1)]);
      MovedKeeps(l, f, closed);
      OpenSegmentKeeps(l, f, moved, SegPath(l, 2));
      assert CreateSpec(l, f, st) == OpenSegment(f, moved, SegPath(l, 2));
    } else {
      assert CreateSpec(l, f, st) == Step(closed, Some(DiskFailed(e.value)));
    }
  }

  /** Two files or more are numbered from 01. */
  lemma NamedMany(l: Layout, paths: seq<string>)
    requires Named(l, paths) && |paths| >= 2
    ensures forall i :: 0 <= i < |paths| ==> paths[i] == SegPath(l, i + 1)
  {
  }

  /** Appending the next number keeps the numbering. */
  lemma NumberedSnoc(l: Layout, paths: seq<string>)
    requires forall i :: 0 <= i < |paths| ==> paths[i] == SegPath(l, i + 1)
    ensures Named(l, paths + [SegPath(l, |paths| + 1)])
  {
    var next := paths + [SegPath(l, |paths| + 1)];
    assert forall i :: 0 <= i < |next| ==> next[i] == SegPath(l, i + 1);
  }

  /** With two files or more, the next number gives a fresh path that keeps the numbering. */
  lemma NumberedNext(l: Layout, paths: seq<string>)
    requires Named(l, paths) && |paths| >= 2
    ensures var p := SegPath(l, |paths| + 1);
      && paths[0] == SegPath(l, 1) && p !in paths && p != SinglePath(l)
      && Named(l, paths + [p])
  {
    NamedMany(l, paths);
    SegPathsFresh(l, paths, |paths| + 1);
    SegPathNotSingle(l, |paths| + 1);
    NumberedSnoc(l, paths);
  }

  lemma CreateLaterKeeps(l: Layout, f: Faults, st: Rec)
    requires Consistent(l, st) && |st.paths| >= 2
    ensures CreateOutcome(l, st, CreateSpec(l, f, st))
  {
    var p := SegPath(l, |st.paths| + 1);
    NumberedNext(l, st.paths);
    assert CreateSpec(l, f, st) == OpenSegment(f, st.(curOpen := false), p);
    OpenNextKeeps(l, f, st, p);
  }

  /** Opening a fresh, well-named next file from a consistent state is a `createFileStream`
      outcome. */
  lemma OpenNextKeeps(l: Layout, f: Faults, st: Rec, p: string)
    requires Consistent(l, st)
    requires Named(l, st.paths + [p]) && p !in st.paths
    requires (st.paths + [p])[0] == SegPath(l, 1) ==> SinglePath(l) !in st.nodes && p != SinglePath(l)
    ensures CreateOutcome(l, st, OpenSegment(f, st.(curOpen := false), p))
  {
    OpenSegmentKeeps(l, f, st.(curOpen := false), p);
  }

  /** `createFileStream` keeps the invariant and the bytes recorded, adds at most one file,
      and on success leaves the new last file open and empty. */
  lemma CreateKeeps(l: Layout, f: Faults, st: Rec)
    requires Consistent(l, st)
    ensures CreateOutcome(l, st, CreateSpec(l, f, st))
  {
    if |st.paths| == 0 {
      CreateFirstKeeps(l, f, st);
    } else if |st.paths| == 1 {
      CreateSecondKeeps(l, f, st);
    } else {
      CreateLaterKeeps(l, f, st);
    }
  }

  /** A write through the current handle either changes nothing or appends the chunk to
      the recorded bytes; counting the chunk in `Total` then restores the invariant. */
  lemma WriteKeeps(l: Layout, f: Faults, st: Rec, data: Bytes)
    requires Consistent(l, st) && (st.curOpen ==> st.paths != [])
    ensures var s := WriteSpec(f, st, data);
      && (s.err.Some? ==> s.st == st)
      && (s.err.None? ==> s.st.paths == st.paths && s.st.total == st.total && s.st.curOpen
                          && Recorded(s.st.nodes, s.st.paths) == Recorded(st.nodes, st.paths) + data
                          && Consistent(l, s.st.(total := st.total + |data|)))
  {
    if st.curOpen && st.paths != [] {
      var p := st.paths[|st.paths| - 1];
      if WriteError(st.nodes, f.unwritable, p).None? {
        var n2 := st.nodes[p := File(st.nodes[p].data + data)];
        assert Recorded(n2, st.paths) == Recorded(st.nodes, st.paths) + data by {
          NamedDistinct(l, st.paths);
          RecordedAppendLast(st.nodes, st.paths, data);
        }
        assert forall k :: 0 <= k < |st.paths| ==> st.paths[k] in n2 && n2[st.paths[k]].File?;
        assert st.paths[0] == SegPath(l, 1) ==> SinglePath(l) !in n2 by {
          if st.paths[0] == SegPath(l, 1) {
            if |st.paths| == 1 {
              SegPathNotSingle(l, 1);
            } else {
              SegPathNotSingle(l, |st.paths|);
            }
          }
        }
        assert Consistent(l, st.(nodes := n2, total := st.total + |data|));
        assert WriteSpec(f, st, data) == Step(st.(nodes := n2), None);
      }
    }
  }

  /** What one chunk does: it lands entirely at the end of the recorded bytes, with `Total`
      grown by its length, or nothing is recorded; the invariant holds either way, and a new
      file was opened exactly when the rotation rule asked for one. */
  ghost predicate ChunkOutcome(l: Layout, st: Rec, data: Bytes, s: Step)
  {
    && Consistent(l, s.st)
    && (s.err.None? ==> Recorded(s.st.nodes, s.st.paths) == Recorded(st.nodes, st.paths) + data)
    && (s.err.None? ==> s.st.total == st.total + |data|)
    && (s.err.None? ==> |s.st.paths| == |st.paths| + (if NeedsRotate(l, st.total, |st.paths|) then 1 else 0))
    && (s.err.Some? ==> Recorded(s.st.nodes, s.st.paths) == Recorded(st.nodes, st.paths) && s.st.total == st.total)
    && |st.paths| <= |s.st.paths| <= |st.paths| + 1
    && (s.st.curOpen ==> s.st.paths != [])
  }

  lemma ChunkKeeps(l: Layout, f: Faults, st: Rec, data: Bytes)
    requires Consistent(l, st) && (st.curOpen ==> st.paths != [])
    ensures ChunkOutcome(l, st, data, ChunkSpec(l, f, st, data))
  {
    var rotate := NeedsRotate(l, st.total, |st.paths|);
    var s1 := if rotate then CreateSpec(l, f, st) else Step(st, None);
    if rotate {
      CreateKeeps(l, f, st);
    }
    if s1.err.None? {
      WriteKeeps(l, f, s1.st, data);
    }
  }

  /** How the read loop ends: every chunk it wrote came from a positive count; it returns a
      read error only for a negative count carrying that error; it returns nil after a zero
      count, at end of file, or after a negative count with a nil error. */
  lemma {:induction false} LoopOutcome(l: Layout, f: Faults, st: Rec, body: seq<ReadResult>)
    ensures var run := LoopSpec(l, f, st, body);
      && run.written <= |body|
      && (forall i :: 0 <= i < run.written ==> body[i].n > 0)
      && (forall m :: run.err == Some(ReadFailed(m)) ==>
            run.written < |body| && body[run.written].n < 0 && body[run.written].err == Some(m))
      && (run.err.None? ==>
            run.written == |body| || body[run.written].n == 0 || (body[run.written].n < 0 && body[run.written].err.None?))
    decreases |body|
  {
    if body != [] && body[0].n > 0 {
      var s := ChunkSpec(l, f, st, body[0].data);
      if s.err.None? {
        var rest := LoopSpec(l, f, s.st, body[1..]);
        LoopOutcome(l, f, s.st, body[1..]);
        assert LoopSpec(l, f, st, body) == rest.(written := rest.written + 1);
        forall i | 0 <= i < rest.written + 1 ensures body[i].n > 0 {
          if i > 0 { assert body[i] == body[1..][i - 1]; }
        }
        if rest.written < |body| - 1 {
          assert body[rest.written + 1] == body[1..][rest.written];
        }
      } else {
        ChunkErrorIsDisk(l, f, st, body[0].data);
        assert LoopSpec(l, f, st, body) == Run(s.st, s.err, 0);
      }
    }
  }

  lemma ChunkErrorIsDisk(l: Layout, f: Faults, st: Rec, data: Bytes)
    ensures ChunkSpec(l, f, st, data).err.Some? ==> ChunkSpec(l, f, st, data).err.value.DiskFailed?
  {
  }

  /** What the read loop guarantees: the invariant, and the files holding the bytes they
      held before followed by exactly the bytes of the chunks written, in read order, with
      `Total` grown by their count. */
  ghost predicate LoopOutcomeRecorded(l: Layout, st: Rec, body: seq<ReadResult>, run: Run)
  {
    && run.written <= |body|
    && Consistent(l, run.st)
    && (run.st.curOpen ==> run.st.paths != [])
    && Recorded(run.st.nodes, run.st.paths) == Recorded(st.nodes, st.paths) + Payload(body[..run.written])
    && run.st.total == st.total + |Payload(body[..run.written])|
  }

  lemma {:induction false} LoopRecords(l: Layout, f: Faults, st: Rec, body: seq<ReadResult>)
    requires Consistent(l, st) && (st.curOpen ==> st.paths != [])
    ensures LoopOutcomeRecorded(l, st, body, LoopSpec(l, f, st, body))
    decreases |body|
  {
    if body == [] || body[0].n <= 0 {
      RecordedNoneWritten(l, st, body, LoopSpec(l, f, st, body));
    } else {
      var s := ChunkSpec(l, f, st, body[0].data);
      ChunkKeeps(l, f, st, body[0].data);
      if s.err.Some? {
        assert LoopSpec(l, f, st, body) == Run(s.st, s.err, 0);
        RecordedNoneWritten(l, st, body, Run(s.st, s.err, 0));
      } else {
        LoopRecords(l, f, s.st, body[1..]);
        var rest := LoopSpec(l, f, s.st, body[1..]);
        assert LoopSpec(l, f, st, body) == rest.(written := rest.written + 1);
        LoopRecordsCons(l, st, body, s, rest);
      }
    }
  }

  /** A scan that wrote nothing keeps the bytes recorded. */
  lemma RecordedNoneWritten(l: Layout, st: Rec, body: seq<ReadResult>, run: Run)
    requires run.written == 0 && Consistent(l, run.st) && (run.st.curOpen ==> run.st.paths != [])
    requires Recorded(run.st.nodes, run.st.paths) == Recorded(st.nodes, st.paths) && run.st.total == st.total
    ensures LoopOutcomeRecorded(l, st, body, run)
  {
    assert body[..0] == [];
  }

  lemma LoopRecordsCons(l: Layout, st: Rec, body: seq<ReadResult>, s: Step, rest: Run)
    requires body != [] && s.err.None? && ChunkOutcome(l, st, body[0].data, s)
    requires LoopOutcomeRecorded(l, s.st, body[1..], rest)
    ensures LoopOutcomeRecorded(l, st, body, rest.(written := rest.written + 1))
  {
    var run := rest.(written := rest.written + 1);
    assert run.st == rest.st;
    LoopRecordsStep(st, s.st, body, rest);
  }

  lemma LoopRecordsStep(st: Rec, mid: Rec, body: seq<ReadResult>, rest: Run)
    requires body != [] && rest.written <= |body| - 1
    requires Recorded(mid.nodes, mid.paths) == Recorded(st.nodes, st.paths) + body[0].data
    requires mid.total == st.total + |body[0].data|
    requires Recorded(rest.st.nodes, rest.st.paths) == Recorded(mid.nodes, mid.paths) + Payload(body[1..][..rest.written])
    requires rest.st.total == mid.total + |Payload(body[1..][..rest.written])|
    ensures Recorded(rest.st.nodes, rest.st.paths) == Recorded(st.nodes, st.paths) + Payload(body[..rest.written + 1])
    ensures rest.st.total == st.total + |Payload(body[..rest.written + 1])|
  {
    assert body[..rest.written + 1] == [body[0]] + body[1..][..rest.written];
    PayloadCons(body[0], body[1..][..rest.written]);
  }

  /** Each chunk opens at most one file: the files grow by at most the chunks written, plus
      one when a write failed after its file was opened. */
  lemma {:induction false} LoopFileCount(l: Layout, f: Faults, st: Rec, body: seq<ReadResult>)
    requires Consistent(l, st) && (st.curOpen ==> st.paths != [])
    ensures var run := LoopSpec(l, f, st, body);
      |st.paths| <= |run.st.paths| <= |st.paths| + run.written + (if run.err.Some? then 1 else 0)
    decreases |body|
  {
    if body != [] && body[0].n > 0 {
      var s := ChunkSpec(l, f, st, body[0].data);
      ChunkKeeps(l, f, st, body[0].data);
      if s.err.None? {
        LoopFileCount(l, f, s.st, body[1..]);
      }
    }
  }

  /** Without a size limit there is never more than one file. */
  lemma {:induction false} LoopUnlimitedSingleFile(l: Layout, f: Faults, st: Rec, body: seq<ReadResult>)
    requires l.flSize == 0 && |st.paths| <= 1
    requires Consistent(l, st) && (st.curOpen ==> st.paths != [])
    ensures |LoopSpec(l, f, st, body).st.paths| <= 1
    decreases |body|
  {
    if body != [] && body[0].n > 0 {
      var s := ChunkSpec(l, f, st, body[0].data);
      ChunkKeeps(l, f, st, body[0].data);
      if s.err.None? {
        LoopUnlimitedSingleFile(l, f, s.st, body[1..]);
      }
    }
  }

  /** With a limit, a capture that ends without error has more than `limit * (k - 1)` bytes
      when it has `k` files: a file is only added once the earlier ones are over budget. */
  predicate OverBudget(l: Layout, st: Rec)
  {
    |st.paths| >= 1 ==> l.flSize * (|st.paths| - 1) < st.total
  }

  lemma ChunkOverBudget(l: Layout, f: Faults, st: Rec, data: Bytes)
    requires l.flSize > 0 && |data| > 0
    requires Consistent(l, st) && (st.curOpen ==> st.paths != []) && OverBudget(l, st)
    ensures var s := ChunkSpec(l, f, st, data); s.err.None? ==> OverBudget(l, s.st)
  {
    ChunkKeeps(l, f, st, data);
    var s := ChunkSpec(l, f, st, data);
    if s.err.None? {
      var k, k1 := |st.paths|, |s.st.paths|;
      var t, t1 := st.total, s.st.total;
      assert t < t1;
      if NeedsRotate(l, t, k) {
        assert k1 - 1 == k;
        if k > 0 {
          assert l.flSize * k < t;
        }
      } else {
        assert k1 == k;
      }
    }
  }

  lemma {:induction false} LoopOverBudget(l: Layout, f: Faults, st: Rec, body: seq<ReadResult>)
    requires l.flSize > 0 && AllHonest(body, BufSize)
    requires Consistent(l, st) && (st.curOpen ==> st.paths != []) && OverBudget(l, st)
    ensures var run := LoopSpec(l, f, st, body); run.err.None? ==> OverBudget(l, run.st)
    decreases |body|
  {
    if body != [] && body[0].n > 0 {
      var s := ChunkSpec(l, f, st, body[0].data);
      ChunkKeeps(l, f, st, body[0].data);
      ChunkOverBudget(l, f, st, body[0].data);
      if s.err.None? {
        LoopOverBudget(l, f, s.st, body[1..]);
      }
    }
  }

  /** A capture keeps the invariant and always leaves the current file closed. After a 2xx
      response the files hold what they held before followed by the bytes of the chunks
      written; a failed request or a rejected status records nothing. */
  lemma CaptureKeeps(l: Layout, f: Faults, st: Rec, resp: Result<Response, string>)
    requires Consistent(l, st) && (st.curOpen ==> st.paths != [])
    ensures var run := CaptureSpec(l, f, st, resp);
      && Consistent(l, run.st)
      && (resp.Ok? ==> !run.st.curOpen)
      && (resp.Ok? && DoHttp.CheckCode(resp.value.status) ==>
            LoopOutcomeRecorded(l, st, resp.value.body, LoopSpec(l, f, st, resp.value.body)))
      && (resp.Err? || !DoHttp.CheckCode(resp.value.status) ==>
            run.st.paths == st.paths && run.st.nodes == st.nodes && run.st.total == st.total && run.written == 0)
  {
    if resp.Ok? && DoHttp.CheckCode(resp.value.status) {
      LoopRecords(l, f, st, resp.value.body);
    }
  }

  /** A capture with no file and nothing written is consistent, whatever the disk holds. */
  lemma EmptyConsistent(l: Layout, nodes: map<string, Node>)
    ensures Consistent(l, Rec([], 0, nodes, false))
  {
    assert Recorded(nodes, []) == [];
  }

  /* ---------------------------------------------------------------------------------- */
  /* The recorder's handles                                                              */

  /** The id of the handle `cur` holds, if any. */
  function HandleIds(cur: Option<Handle>): (r: set<nat>)
    ensures cur.None? <==> r == {}
    ensures cur.Some? ==> cur.value.id in r && |r| == 1
  {
    if cur.Some? then {cur.value.id} else {}
  }

  /** From the open set `open0`, current handle `cur0` and next id `next0` to `open1`, `cur1`
      and `next1`, the recorder touched no handle but its current one: leaving the current
      handles aside, the open set is unchanged; ids are only issued forward; and a current
      handle that changed is one issued since the start. */
  ghost predicate HandlesStep(open0: set<nat>, cur0: Option<Handle>, next0: nat,
                              open1: set<nat>, cur1: Option<Handle>, next1: nat)
  {
    && open1 - HandleIds(cur1) == open0 - HandleIds(cur0)
    && next0 <= next1
    && (cur1 != cur0 ==> cur1.Some? && next0 <= cur1.value.id)
  }

  /** Two steps make a step. */
  lemma HandlesStepTrans(open0: set<nat>, cur0: Option<Handle>, next0: nat,
                         open1: set<nat>, cur1: Option<Handle>, next1: nat,
                         open2: set<nat>, cur2: Option<Handle>, next2: nat)
    requires HandlesStep(open0, cur0, next0, open1, cur1, next1)
    requires HandlesStep(open1, cur1, next1, open2, cur2, next2)
    ensures HandlesStep(open0, cur0, next0, open2, cur2, next2)
  {
  }

  /** Close before reopen: when a step replaced a current handle issued before it, the old
      handle is no longer open. */
  lemma ReplacedIsClosed(open0: set<nat>, cur0: Option<Handle>, next0: nat,
                         open1: set<nat>, cur1: Option<Handle>, next1: nat)
    requires HandlesStep(open0, cur0, next0, open1, cur1, next1)
    requires cur0.Some? ==> cur0.value.id < next0
    requires cur1 != cur0
    ensures HandleIds(cur0) !! open1
  {
    if cur0.Some? {
      assert cur0.value.id !in HandleIds(cur1);
      assert cur0.value.id !in open0 - HandleIds(cur0);
    }
  }

  /** `createFileStream`'s handles: the old current one is closed, then either nothing was
      opened or one new handle, the next id, was. */
  lemma CloseThenOpen(open0: set<nat>, cur0: Option<Handle>, next0: nat,
                      open2: set<nat>, cur2: Option<Handle>, next2: nat)
    requires forall id :: id in open0 ==> id < next0
    requires cur0.Some? ==> cur0.value.id < next0
    requires || (cur2 == cur0 && open2 == open0 - HandleIds(cur0) && next2 == next0)
             || (&& cur2.Some? && cur2.value.id == next0 && next2 == next0 + 1
                 && open2 == (open0 - HandleIds(cur0)) + HandleIds(cur2))
    ensures HandlesStep(open0, cur0, next0, open2, cur2, next2)
    ensures HandleIds(cur0) !! open2
  {
    if cur2 != cur0 {
      assert next0 !in open0;
    }
  }

  /* ---------------------------------------------------------------------------------- */
  /* The recorder                                                                        */

  class Live {
    var URL: string
    var FDir: string
    var FName: string
    var FFormat: string
    var FLSize: int
    var Total: int
    var Cur: Option<Handle>
    var Paths: seq<string>
    const disk: Disk

    function Config(): Layout
      reads this`FDir, this`FName, this`FFormat, this`FLSize
    {
      Layout(FDir, FName, FFormat, FLSize)
    }

    function DiskFaults(): Faults
    {
      Faults(disk.faulty, disk.unwritable)
    }

    ghost function State(): Rec
      reads this, disk
    {
      Rec(Paths, Total, disk.nodes, Cur.Some? && Cur.value.id in disk.open)
    }

    ghost predicate Valid()
      reads this, disk
    {
      && disk.Valid()
      && (Cur.Some? ==> Cur.value.id < disk.nextHandle)
      && (Cur.Some? && Cur.value.id in disk.open ==> Paths != [] && Cur.value.path == Paths[|Paths| - 1])
    }

    /** A recorder for the given directory, name and format, with no file yet and nothing
        written. */
    constructor Init(url: string, dir: string, name: string, format: string, fLSize: int, disk: Disk)
      requires disk.Valid()
      ensures Valid() && Consistent(Config(), State())
      ensures this.disk == disk && URL == url && FLSize == fLSize
      ensures FDir == dir && FName == name && FFormat == format
      ensures Total == 0 && Paths == [] && Cur == None
    {
      URL := url;
      FDir := dir;
      FName := name;
      FFormat := format;
      FLSize := fLSize;
      Total := 0;
      Cur := None;
      Paths := [];
      this.disk := disk;
      new;
      EmptyConsistent(Config(), disk.nodes);
    }

    /** `New`: the directory, name and format come from the output path. */
    static method New(url: string, path: string, fLSize: int, disk: Disk) returns (l: Live)
      requires disk.Valid()
      ensures fresh(l) && l.Valid() && Consistent(l.Config(), l.State())
      ensures l.disk == disk && l.URL == url && l.FLSize == fLSize
      ensures Parts(l.FDir, l.FName, l.FFormat) == SplitOutputPath(path)
      ensures l.Total == 0 && l.Paths == [] && l.Cur == None
    {
      var parts := SplitOutputPath(path);
      l := new Live.Init(url, parts.dir, parts.name, parts.format, fLSize, disk);
    }

    /** `closeCurFile`: closes the current handle, if any; a second close is harmless. */
    method CloseCurFile()
      requires disk.Valid()
      modifies disk`open
      ensures disk.Valid()
      ensures State() == old(State()).(curOpen := false)
      ensures disk.open == old(disk.open) - HandleIds(Cur)
    {
      if Cur.Some? {
        var ignored := disk.Close(Cur.value);
      }
    }

    /** Creates (or truncates) the file `p` and makes it the current one, last in `Paths`. */
    method OpenNext(p: string) returns (err: Option<Error>)
      requires disk.Valid() && (Cur.Some? ==> Cur.value.id !in disk.open)
      modifies this`Cur, this`Paths, disk
      ensures disk.Valid()
      ensures var s := OpenSegment(DiskFaults(), old(State()), p); State() == s.st && err == s.err
      ensures err.None? ==> Cur.Some? && Cur.value.path == p && Cur.value.id in disk.open
      ensures err.Some? ==> Cur == old(Cur) && disk.open == old(disk.open) && disk.nextHandle == old(disk.nextHandle)
      ensures err.None? ==> && disk.open == old(disk.open) + HandleIds(Cur)
                            && Cur.value.id == old(disk.nextHandle) && disk.nextHandle == old(disk.nextHandle) + 1
    {
      var file := disk.OpenTrunc(p);
      if file.Err? {
        return Some(DiskFailed(file.error));
      }
      Cur := Some(file.value);
      Paths := Paths + [p];
      err := None;
    }

    /** The rename of `createFileStream`: the single file becomes number 01. */
    method RenameSingle() returns (err: Option<Error>)
      requires |Paths| == 1
      modifies this`Paths, disk`nodes
      ensures var e := RenameError(old(disk.nodes), disk.faulty, SinglePath(Config()), SegPath(Config(), 1));
        && (e.Some? ==> err == Some(DiskFailed(e.value)) && Paths == old(Paths) && disk.nodes == old(disk.nodes))
        && (e.None? ==> err.None? && Paths == [SegPath(Config(), 1)]
                        && disk.nodes == Renamed(old(disk.nodes), SinglePath(Config()), SegPath(Config(), 1)))
      ensures var e := RenameError(old(disk.nodes), disk.faulty, SinglePath(Config()), SegPath(Config(), 1));
        && (e.Some? ==> State() == old(State()))
        && (e.None? ==> State() == old(State()).(nodes := Renamed(old(State()).nodes, SinglePath(Config()), SegPath(Config(), 1)),
                                                  paths := [SegPath(Config(), 1)]))
    {
      var first := SegPath(Config(), 1);
      var e := disk.Rename(SinglePath(Config()), first);
      if e.Some? {
        return Some(DiskFailed(e.value));
      }
      Paths := [first];
      err := None;
    }

    /** `createFileStream`. */
    method CreateFileStream() returns (err: Option<Error>)
      requires Valid()
      modifies this`Cur, this`Paths, disk
      ensures Valid()
      ensures var s := CreateSpec(Config(), DiskFaults(), old(State())); State() == s.st && err == s.err
      ensures HandlesStep(old(disk.open), old(Cur), old(disk.nextHandle), disk.open, Cur, disk.nextHandle)
      ensures HandleIds(old(Cur)) !! disk.open
    {
      ghost var open0, cur0, next0 := disk.open, Cur, disk.nextHandle;
      ghost var st0 := State();
      CloseCurFile();
      CreateClosedFirst(Config(), DiskFaults(), st0);
      err := OpenAfterClose();
      CloseThenOpen(open0, cur0, next0, disk.open, Cur, disk.nextHandle);
    }

    /** `createFileStream` once the current file is closed. */
    method OpenAfterClose() returns (err: Option<Error>)
      requires disk.Valid() && (Cur.Some? ==> Cur.value.id !in disk.open && Cur.value.id < disk.nextHandle)
      modifies this`Cur, this`Paths, disk
      ensures Valid()
      ensures var s := CreateSpec(Config(), DiskFaults(), old(State())); State() == s.st && err == s.err
      ensures err.Some? ==> Cur == old(Cur) && disk.open == old(disk.open) && disk.nextHandle == old(disk.nextHandle)
      ensures err.None? ==> && disk.open == old(disk.open) + HandleIds(Cur)
                            && Cur.value.id == old(disk.nextHandle) && disk.nextHandle == old(disk.nextHandle) + 1
    {
      if |Paths| == 1 {
        err := RenameAndOpenSecond();
      } else {
        var path := if |Paths| == 0 then SinglePath(Config()) else SegPath(Config(), |Paths| + 1);
        err := OpenNext(path);
      }
    }

    /** The branch of `createFileStream` that turns the single file into two segments. */
    method RenameAndOpenSecond() returns (err: Option<Error>)
      requires disk.Valid() && |Paths| == 1 && (Cur.Some? ==> Cur.value.id !in disk.open && Cur.value.id < disk.nextHandle)
      modifies this`Cur, this`Paths, disk
      ensures Valid()
      ensures var s := SecondSegment(Config(), DiskFaults(), old(State())); State() == s.st && err == s.err
      ensures err.Some? ==> Cur == old(Cur) && disk.open == old(disk.open) && disk.nextHandle == old(disk.nextHandle)
      ensures err.None? ==> && disk.open == old(disk.open) + HandleIds(Cur)
                            && Cur.value.id == old(disk.nextHandle) && disk.nextHandle == old(disk.nextHandle) + 1
    {
      ghost var closed := State();
      err := RenameSingle();
      if err.Some? {
        return;
      }
      assert State() == closed.(nodes := Renamed(closed.nodes, SinglePath(Config()), SegPath(Config(), 1)),
                                paths := [SegPath(Config(), 1)]);
      err := OpenNext(SegPath(Config(), 2));
    }

    /** The write of `io.Copy(l.Cur, bytes.NewReader(buf[:n]))`. */
    method WriteCur(chunk: Bytes) returns (err: Option<Error>)
      requires Valid()
      modifies disk`nodes
      ensures var s := WriteSpec(DiskFaults(), old(State()), chunk); State() == s.st && err == s.err
    {
      if Cur.None? {
        return Some(DiskFailed(NotOpen));
      }
      var e := disk.Write(Cur.value, chunk);
      err := if e.Some? then Some(DiskFailed(e.value)) else None;
    }

    /** One pass of `Capture`'s loop with a chunk in hand. */
    method CaptureChunk(chunk: Bytes) returns (err: Option<Error>)
      requires Valid()
      modifies this`Total, this`Cur, this`Paths, disk
      ensures Valid()
      ensures var s := ChunkSpec(Config(), DiskFaults(), old(State()), chunk); State() == s.st && err == s.err
      ensures HandlesStep(old(disk.open), old(Cur), old(disk.nextHandle), disk.open, Cur, disk.nextHandle)
      ensures Cur != old(Cur) ==> HandleIds(old(Cur)) !! disk.open
    {
      ghost var spec := ChunkSpec(Config(), DiskFaults(), State(), chunk);
      if NeedsRotate(Config(), Total, |Paths|) {
        err := CreateFileStream();
        if err.Some? {
          return;
        }
      }
      err := WriteCur(chunk);
      if err.Some? {
        return;
      }
      Total := Total + |chunk|;
      assert State() == spec.st;
    }

    /** One pass of `Capture`'s read loop: the `i`-th read, then, when it delivered bytes,
        `CaptureChunk` on them. `done` says the loop ends here, with the scan's state and
        error; otherwise the scan goes on from the next call. */
    method ReadOnce(buf: array<Byte>, body: seq<ReadResult>, i: nat, ghost l: Layout, ghost f: Faults, ghost whole: Run)
      returns (err: Option<Error>, done: bool)
      requires Valid() && Config() == l && DiskFaults() == f
      requires buf.Length == BufSize && AllHonest(body, BufSize) && i <= |body|
      requires var run := LoopSpec(l, f, State(), body[i..]); whole == run.(written := run.written + i)
      modifies this`Total, this`Cur, this`Paths, disk, buf
      ensures Valid() && Config() == l
      ensures done ==> State() == whole.st && err == whole.err
      ensures !done ==> i < |body| && var run := LoopSpec(l, f, State(), body[i + 1..]); whole == run.(written := run.written + i + 1)
      ensures HandlesStep(old(disk.open), old(Cur), old(disk.nextHandle), disk.open, Cur, disk.nextHandle)
    {
      var r := ReadAt(body, i);
      if r.n > 0 {
        FillFront(buf, r.data);
      }
      if r.n <= 0 {
        LoopStop(l, f, State(), body, i, whole);
        return (if r.n < 0 then ReadError(r.err) else None), true;
      }
      var chunk := buf[..r.n];
      assert chunk == body[i].data by {
        assert r == body[i] && Honest(body[i], BufSize);
      }
      LoopAdvance(l, f, State(), body, i, whole);
      err := CaptureChunk(chunk);
      done := err.Some?;
    }

    /** The read loop of `Capture`: reads into a `BufSize` buffer and hands each chunk to
        `CaptureChunk`, until end of file or the first error. */
    method ReadLoop(body: seq<ReadResult>) returns (err: Option<Error>)
      requires Valid() && AllHonest(body, BufSize)
      modifies this`Total, this`Cur, this`Paths, disk
      ensures Valid()
      ensures var run := LoopSpec(Config(), DiskFaults(), old(State()), body); State() == run.st && err == run.err
      ensures HandlesStep(old(disk.open), old(Cur), old(disk.nextHandle), disk.open, Cur, disk.nextHandle)
      ensures Cur != old(Cur) ==> HandleIds(old(Cur)) !! disk.open
    {
      var buf := new Byte[BufSize];
      var i := 0;
      ghost var l, f := Config(), DiskFaults();
      ghost var open0, cur0, next0 := disk.open, Cur, disk.nextHandle;
      ghost var whole := LoopSpec(l, f, State(), body);
      var done := false;
      err := None;
      while !done
        invariant Valid() && Config() == l
        invariant i <= |body|
        invariant !done ==> var run := LoopSpec(l, f, State(), body[i..]); whole == run.(written := run.written + i)
        invariant done ==> State() == whole.st && err == whole.err
        invariant HandlesStep(open0, cur0, next0, disk.open, Cur, disk.nextHandle)
        decreases |body| - i, !done
      {
        ghost var open1, cur1, next1 := disk.open, Cur, disk.nextHandle;
        err, done := ReadOnce(buf, body, i, l, f, whole);
        HandlesStepTrans(open0, cur0, next0, open1, cur1, next1, disk.open, Cur, disk.nextHandle);
        if !done {
          i := i + 1;
        }
      }
      if Cur != cur0 {
        ReplacedIsClosed(open0, cur0, next0, disk.open, Cur, disk.nextHandle);
      }
    }

    /** `Capture`: the request outcome is `resp` (an error for a failed request or exchange). */
    method Capture(resp: Result<Response, string>) returns (err: Option<Error>)
      requires Valid()
      requires resp.Ok? ==> AllHonest(resp.value.body, BufSize)
      modifies this`Total, this`Cur, this`Paths, disk
      ensures Valid()
      ensures var run := CaptureSpec(Config(), DiskFaults(), old(State()), resp); State() == run.st && err == run.err
      ensures resp.Ok? ==> Cur.None? || Cur.value.id !in disk.open
      ensures resp.Ok? ==> disk.open == old(disk.open) - HandleIds(old(Cur))
      ensures resp.Err? ==> disk.open == old(disk.open)
    {
      if resp.Err? {
        return Some(Transport(resp.error));
      }
      var body := resp.value.body;
      if !DoHttp.CheckCode(resp.value.status) {
        CloseCurFile();
        return Some(BadStatus(resp.value.status));
      }
      err := ReadLoop(body);
      CloseCurFile();
    }
  }
}
