/** Package `dofile`: existence checks, copying, and the integrity check of image files by
    their leading and trailing magic numbers. */
module DoFile {
  import opened Wrappers
  import opened Strs
  import opened Streams
  import opened Hex
  import Fs

  datatype Error =
    | Os(err: Fs.FsError)
    | Absent(path: string)          // "目标不存在"
    | IsDirectory(path: string)     // "目标为目录"
    | UnknownFormat(suffix: string)
    | DstExists                     // "the dst file is already exists"
    | NotRegular(path: string)
    | BadDescriptor(path: string)   // writing through a descriptor opened read-only
    | SeekBeforeStart(path: string) // seeking from the end past the start of a short file
    | Panicked                      // a run-time panic of the Go program

  /** `PathExists`: (true, nil) when `os.Stat` succeeds, (false, nil) when the path does not
      exist, and (false, err) for any other failure. */
  function PathExists(nodes: map<string, Fs.Node>, faulty: set<string>, path: string): (r: (bool, Option<Error>))
    ensures r.0 <==> Fs.StatOf(nodes, faulty, path).Found?
    ensures r.1.Some? <==> Fs.StatOf(nodes, faulty, path).StatFailed?
    ensures !(r.0 && r.1.Some?)
  {
    match Fs.StatOf(nodes, faulty, path)
    case Found(_) => (true, None)
    case Missing => (false, None)
    case StatFailed(e) => (false, Some(Os(e)))
  }

  /** `isDir`: whether `os.Stat` reports a directory, or its error. */
  function IsDir(nodes: map<string, Fs.Node>, faulty: set<string>, path: string): (r: (bool, Option<Error>))
    ensures r.0 <==> path !in faulty && path in nodes && nodes[path].Dir?
    ensures r.1.Some? <==> path in faulty || path !in nodes
  {
    match Fs.StatOf(nodes, faulty, path)
    case Found(n) => (n.Dir?, None)
    case Missing => (false, Some(Os(Fs.NotExist(path))))
    case StatFailed(e) => (false, Some(Os(e)))
  }

  /** The bytes to read from each end of a file and the upper-case base16 they must show
      (an empty string accepts anything). */
  datatype MagicNum = MagicNum(nHead: nat, nTail: nat, headMust: string, tailMust: string)

  const JpegHead: Bytes := [0xFF, 0xD8, 0xFF, 0xE0]
  const JpegTail: Bytes := [0xFF, 0xD9]
  const PngHead: Bytes := [0x89, 0x50, 0x4E, 0x47]
  const PngTail: Bytes := [0xAE, 0x42, 0x60, 0x82]
  const GifHead: Bytes := [0x47, 0x49, 0x46, 0x38]

  predicate KnownSuffix(lower: string)
  {
    lower == ".jpg" || lower == ".jpeg" || lower == ".png" || lower == ".gif"
  }

  /** `getMagicNum`: the table entry of the suffix, compared without regard to case; any
      other suffix is an error. */
  function GetMagicNum(suffix: string): (r: Result<MagicNum, Error>)
    ensures r.Ok? <==> KnownSuffix(ToLower(suffix))
    ensures r.Err? ==> r.error == UnknownFormat(suffix)
  {
    var lower := ToLower(suffix);
    if lower == ".jpg" || lower == ".jpeg" then Ok(MagicNum(4, 2, "FFD8FFE0", "FFD9"))
    else if lower == ".png" then Ok(MagicNum(4, 4, "89504E47", "AE426082"))
    else if lower == ".gif" then Ok(MagicNum(4, 4, "47494638", ""))
    else Err(UnknownFormat(suffix))
  }

  /** The table's text is the base16 of the signatures: `headMust` spells the head bytes
      and a non-empty `tailMust` spells the tail bytes. */
  lemma MagicTexts()
    ensures EncodeUpper(JpegHead) == "FFD8FFE0" && EncodeUpper(JpegTail) == "FFD9"
    ensures EncodeUpper(PngHead) == "89504E47" && EncodeUpper(PngTail) == "AE426082"
    ensures EncodeUpper(GifHead) == "47494638"
  {
    JpegTexts();
    PngTexts();
    GifText();
  }

  lemma GifText()
    ensures EncodeUpper(GifHead) == "47494638"
  {
    assert EncodeUpper(GifHead[3..]) == "38";
  }

  lemma JpegTexts()
    ensures EncodeUpper(JpegHead) == "FFD8FFE0" && EncodeUpper(JpegTail) == "FFD9"
  {
    assert EncodeUpper(JpegTail[1..]) == "D9";
    assert EncodeUpper(JpegHead[3..]) == "E0";
  }

  lemma PngTexts()
    ensures EncodeUpper(PngHead) == "89504E47" && EncodeUpper(PngTail) == "AE426082"
  {
    assert EncodeUpper(PngHead[3..]) == "47";
    assert EncodeUpper(PngTail[3..]) == "82";
  }

  /** The file formats by their signatures: a JPEG starts FF D8 FF E0 and ends FF D9, a PNG
      starts 89 50 4E 47 and ends AE 42 60 82, a GIF starts 47 49 46 38 and is at least four
      bytes long. */
  predicate LooksLike(lower: string, data: Bytes)
  {
    if lower == ".jpg" || lower == ".jpeg" then
      |data| >= 4 && data[..4] == JpegHead && data[|data| - 2..] == JpegTail
    else if lower == ".png" then
      |data| >= 4 && data[..4] == PngHead && data[|data| - 4..] == PngTail
    else if lower == ".gif" then
      |data| >= 4 && data[..4] == GifHead
    else false
  }

  /** `CheckIntegrity`'s suffix as written: from the last '.' of the whole path on, which
      slices from -1 and panics when the path has no '.'. */
  function SuffixAsWritten(path: string): (r: Result<string, Error>)
    ensures r.Err? <==> '.' !in path
  {
    var d := LastIndex(path, '.');
    if d < 0 then Err(Panicked) else Ok(path[d..])
  }

  /** A path without a '.' makes the integrity test panic. */
  lemma SuffixAsWrittenPanics()
    ensures SuffixAsWritten("/tmp/photo") == Err(Panicked)
  {
    assert '.' !in "/tmp/photo";
  }

  /** The suffix with the missing '.' read as no suffix, which the table then rejects. */
  function Suffix(path: string): (r: string)
    ensures '.' in path ==> r != "" && r[0] == '.' && HasSuffix(path, r) && '.' !in r[1..]
    ensures '.' !in path ==> r == "" && GetMagicNum(r) == Err(UnknownFormat(""))
  {
    var d := LastIndex(path, '.');
    if d < 0 then "" else path[d..]
  }

  /** The first `n` bytes of `data` as one `Read` into a zeroed buffer of `n` bytes leaves
      them: a shorter file leaves the buffer's end zero. */
  function HeadOf(data: Bytes, n: nat): (r: Bytes)
    ensures |r| == n
    ensures n <= |data| ==> r == data[..n]
  {
    if n <= |data| then data[..n] else data + seq(n - |data|, _ => 0)
  }

  /** A wanted head that ends in a non-zero byte is met only by a file that long. */
  lemma HeadMatch(data: Bytes, want: Bytes)
    requires want != [] && want[|want| - 1] != 0
    ensures HeadOf(data, |want|) == want <==> |want| <= |data| && data[..|want|] == want
  {
    if |data| < |want| {
      assert HeadOf(data, |want|)[|want| - 1] == 0;
    }
  }

  /** `ReadHeadTailBytes` on the node at the path: the head buffer, then the last `nTail`
      bytes; seeking before the start of a file shorter than `nTail` fails, and so does
      reading a node that is not a regular file. */
  function ReadHeadTail(node: Fs.Node, path: string, nHead: nat, nTail: nat): (r: Result<(Bytes, Bytes), Error>)
    ensures r.Ok? <==> node.File? && nTail <= |node.data|
    ensures r.Ok? ==> r.value == (HeadOf(node.data, nHead), node.data[|node.data| - nTail..])
  {
    if !node.File? then Err(Os(Fs.NotAFile(path)))
    else if |node.data| < nTail then Err(SeekBeforeStart(path))
    else Ok((HeadOf(node.data, nHead), node.data[|node.data| - nTail..]))
  }

  /** The verdict on the bytes read; the error of `ReadHeadTailBytes` is dropped, leaving
      both byte strings empty. */
  function Judge(node: Fs.Node, path: string, m: MagicNum): bool
  {
    var (head, tail) := match ReadHeadTail(node, path, m.nHead, m.nTail)
      case Ok(ht) => ht
      case Err(_) => ([], []);
    (m.headMust == "" || ToUpper(EncodeLower(head)) == m.headMust)
    && (m.tailMust == "" || ToUpper(EncodeLower(tail)) == m.tailMust)
  }

  /** Upper-cased lower-case base16 of `bs` equals the upper-case base16 of `want` exactly
      when `bs` is `want`. */
  lemma HexEqual(bs: Bytes, want: Bytes)
    ensures ToUpper(EncodeLower(bs)) == EncodeUpper(want) <==> bs == want
  {
    UpperOfLower(bs);
    EncodeUpperInjective(bs, want);
  }

  /** The verdict against a table entry that spells `hb` and `tb`, stated on the bytes. */
  lemma JudgeSignature(node: Fs.Node, path: string, m: MagicNum, hb: Bytes, tb: Bytes)
    requires hb != [] && hb[|hb| - 1] != 0 && m.nHead == |hb| && m.headMust == EncodeUpper(hb)
    requires m.nTail <= m.nHead
    requires m.tailMust == "" || (m.tailMust == EncodeUpper(tb) && m.nTail == |tb|)
    ensures Judge(node, path, m) <==>
      node.File? && |hb| <= |node.data| && node.data[..|hb|] == hb
      && (m.tailMust == "" || node.data[|node.data| - |tb|..] == tb)
  {
    var ht := ReadHeadTail(node, path, m.nHead, m.nTail);
    var head := if ht.Ok? then ht.value.0 else [];
    var tail := if ht.Ok? then ht.value.1 else [];
    var headOk := ToUpper(EncodeLower(head)) == m.headMust;
    var tailOk := m.tailMust == "" || ToUpper(EncodeLower(tail)) == m.tailMust;
    assert Judge(node, path, m) == (headOk && tailOk);
    assert headOk <==> head == hb by { HexEqual(head, hb); }
    if ht.Ok? {
      assert head == hb <==> |hb| <= |node.data| && node.data[..|hb|] == hb by { HeadMatch(node.data, hb); }
      if m.tailMust != "" {
        assert tailOk <==> tail == tb by { HexEqual(tail, tb); }
      }
    }
  }

  /** The comparison of base16 text amounts to the comparison of the file's bytes with the
      signature of its format. */
  lemma JudgeLooksLike(node: Fs.Node, path: string, suffix: string)
    requires GetMagicNum(suffix).Ok?
    ensures Judge(node, path, GetMagicNum(suffix).value) <==> node.File? && LooksLike(ToLower(suffix), node.data)
  {
    var lower := ToLower(suffix);
    var m := GetMagicNum(suffix).value;
    if lower == ".jpg" || lower == ".jpeg" {
      JudgeJpeg(node, path, lower, m);
    } else if lower == ".png" {
      JudgePng(node, path, lower, m);
    } else {
      JudgeGif(node, path, lower, m);
    }
  }

  lemma JudgeJpeg(node: Fs.Node, path: string, lower: string, m: MagicNum)
    requires (lower == ".jpg" || lower == ".jpeg") && m == MagicNum(4, 2, "FFD8FFE0", "FFD9")
    ensures Judge(node, path, m) <==> node.File? && LooksLike(lower, node.data)
  {
    JpegTexts();
    JudgeSignature(node, path, m, JpegHead, JpegTail);
  }

  lemma JudgePng(node: Fs.Node, path: string, lower: string, m: MagicNum)
    requires lower == ".png" && m == MagicNum(4, 4, "89504E47", "AE426082")
    ensures Judge(node, path, m) <==> node.File? && LooksLike(lower, node.data)
  {
    PngTexts();
    JudgeSignature(node, path, m, PngHead, PngTail);
  }

  lemma JudgeGif(node: Fs.Node, path: string, lower: string, m: MagicNum)
    requires lower == ".gif" && m == MagicNum(4, 4, "47494638", "")
    ensures Judge(node, path, m) <==> node.File? && LooksLike(lower, node.data)
  {
    GifText();
    JudgeSignature(node, path, m, GifHead, []);
  }

  /** `CheckIntegrity`, with the suffix of a path without '.' read as empty: a missing path,
      a directory and an unknown suffix are errors; otherwise the verdict is whether the
      file's bytes carry the signature of its format. */
  method CheckIntegrity(nodes: map<string, Fs.Node>, faulty: set<string>, path: string) returns (integrity: bool, err: Option<Error>)
    ensures err.Some? ==> !integrity
    ensures err.None? <==> path !in faulty && path in nodes && !nodes[path].Dir? && KnownSuffix(ToLower(Suffix(path)))
    ensures path !in faulty && path !in nodes ==> err == Some(Absent(path))
    ensures path !in faulty && path in nodes && nodes[path].Dir? ==> err == Some(IsDirectory(path))
    ensures err.None? ==> (integrity <==> nodes[path].File? && LooksLike(ToLower(Suffix(path)), nodes[path].data))
  {
    var exist, statErr := PathExists(nodes, faulty, path).0, PathExists(nodes, faulty, path).1;
    if statErr.Some? {
      return false, statErr;
    }
    if !exist {
      return false, Some(Absent(path));
    }
    var isdir, dirErr := IsDir(nodes, faulty, path).0, IsDir(nodes, faulty, path).1;
    if dirErr.Some? {
      return false, dirErr;
    }
    if isdir {
      return false, Some(IsDirectory(path));
    }
    var suffix := Suffix(path);
    var magic := GetMagicNum(suffix);
    if magic.Err? {
      return false, Some(magic.error);
    }
    var m := magic.value;
    var read := ReadHeadTail(nodes[path], path, m.nHead, m.nTail);
    var headBytes, tailBytes := [], [];
    if read.Ok? {
      headBytes, tailBytes := read.value.0, read.value.1;
    }
    var head, tail := EncodeLower(headBytes), EncodeLower(tailBytes);
    integrity := (m.headMust == "" || ToUpper(head) == m.headMust) && (m.tailMust == "" || ToUpper(tail) == m.tailMust);
    err := None;
    JudgeLooksLike(nodes[path], path, suffix);
  }

  /** The outcome of `CopyFile`: the count copied, the error, and the nodes afterwards. */
  datatype Copied = Copied(n: nat, err: Option<Error>, nodes: map<string, Fs.Node>)

  /** Why `CopyFile` stops before opening the destination, if it does. */
  function CopyGuard(nodes: map<string, Fs.Node>, faulty: set<string>, src: string, dst: string, override: bool): (r: Option<Error>)
    ensures r.None? <==> dst !in faulty && (dst in nodes ==> override)
                         && src !in faulty && src in nodes && nodes[src].File?
    ensures dst !in faulty && dst in nodes && !override ==> r == Some(DstExists)
  {
    var (exist, existErr) := PathExists(nodes, faulty, dst);
    if existErr.Some? then existErr
    else if exist && !override then Some(DstExists)
    else match Fs.StatOf(nodes, faulty, src)
      case Missing => Some(Os(Fs.NotExist(src)))
      case StatFailed(e) => Some(Os(e))
      case Found(n) => if !n.File? then Some(NotRegular(src)) else None
  }

  /** `CopyFile` as written: the destination is opened with O_CREATE|O_TRUNC and no access
      mode, that is read-only, so it is emptied and the first write into it fails. */
  function CopyAsWritten(nodes: map<string, Fs.Node>, faulty: set<string>, src: string, dst: string, override: bool): (r: Copied)
  {
    match CopyGuard(nodes, faulty, src, dst, override)
    case Some(e) => Copied(0, Some(e), nodes)
    case None =>
      match Fs.OpenError(nodes, faulty, dst)
      case Some(e) => Copied(0, Some(Os(e)), nodes)
      case None =>
        var created := nodes[dst := Fs.File([])];
        var data := created[src].data;
        if data == [] then Copied(0, None, created) else Copied(0, Some(BadDescriptor(dst)), created)
  }

  /** Copying a non-empty regular file to a fresh path fails as written, and leaves an empty
      file at the destination. */
  lemma CopyAsWrittenLosesData(nodes: map<string, Fs.Node>, faulty: set<string>, src: string, dst: string)
    requires src != dst && src !in faulty && dst !in faulty && dst !in nodes
    requires src in nodes && nodes[src].File? && nodes[src].data != []
    ensures var c := CopyAsWritten(nodes, faulty, src, dst, false);
      c.err == Some(BadDescriptor(dst)) && c.nodes[dst] == Fs.File([])
  {
  }

  /** `CopyFile` with the write-only access mode it evidently intends. The source is read
      after the destination is truncated, so copying a file onto itself empties it. */
  function CopyOutcome(nodes: map<string, Fs.Node>, faulty: set<string>, unwritable: set<string>, src: string, dst: string, override: bool): (r: Copied)
  {
    match CopyGuard(nodes, faulty, src, dst, override)
    case Some(e) => Copied(0, Some(e), nodes)
    case None =>
      match Fs.OpenError(nodes, faulty, dst)
      case Some(e) => Copied(0, Some(Os(e)), nodes)
      case None =>
        var created := nodes[dst := Fs.File([])];
        var data := created[src].data;
        if data != [] && dst in unwritable then Copied(0, Some(Os(Fs.WriteFault(dst))), created)
        else Copied(|data|, None, created[dst := Fs.File(data)])
  }

  /** A copy between two different paths succeeds exactly when the guards pass and the
      destination can be opened and written, and then the destination holds the source's
      bytes, the count is their length, and no other path changes. */
  lemma CopyDelivers(nodes: map<string, Fs.Node>, faulty: set<string>, unwritable: set<string>, src: string, dst: string, override: bool)
    requires src != dst
    ensures var c := CopyOutcome(nodes, faulty, unwritable, src, dst, override);
      && (c.err.None? <==> (CopyGuard(nodes, faulty, src, dst, override).None?
                            && Fs.OpenError(nodes, faulty, dst).None?
                            && (nodes[src].data != [] ==> dst !in unwritable)))
      && (c.err.None? ==> c.nodes[dst] == nodes[src] && c.n == |nodes[src].data|)
      && (forall q :: q != dst ==> (q in c.nodes <==> q in nodes) && (q in nodes ==> c.nodes[q] == nodes[q]))
  {
  }

  /** `CopyFile`, applied to the disk. */
  method CopyFile(disk: Fs.Disk, src: string, dst: string, override: bool) returns (n: nat, err: Option<Error>)
    modifies disk`nodes
    ensures Copied(n, err, disk.nodes) == CopyOutcome(old(disk.nodes), disk.faulty, disk.unwritable, src, dst, override)
  {
    var exist, existErr := PathExists(disk.nodes, disk.faulty, dst).0, PathExists(disk.nodes, disk.faulty, dst).1;
    if existErr.Some? {
      return 0, existErr;
    }
    if exist && !override {
      return 0, Some(DstExists);
    }
    var srcStat := Fs.StatOf(disk.nodes, disk.faulty, src);
    if srcStat.Missing? {
      return 0, Some(Os(Fs.NotExist(src)));
    }
    if srcStat.StatFailed? {
      return 0, Some(Os(srcStat.err));
    }
    if !srcStat.node.File? {
      return 0, Some(NotRegular(src));
    }
    var openErr := Fs.OpenError(disk.nodes, disk.faulty, dst);
    if openErr.Some? {
      return 0, Some(Os(openErr.value));
    }
    disk.nodes := disk.nodes[dst := Fs.File([])];
    var data := disk.nodes[src].data;
    if data != [] && dst in disk.unwritable {
      return 0, Some(Os(Fs.WriteFault(dst)));
    }
    disk.nodes := disk.nodes[dst := Fs.File(data)];
    n, err := |data|, None;
  }
}
