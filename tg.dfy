/** The Telegram sender of package dotg: the verdict on each POST, the multipart media
    group it uploads (rewriting the caller's media records in place), and the preparation
    of a video before it is sent as a group of segments. */
module DoTg {
  import opened Wrappers
  import opened Strs
  import opened Streams
  import opened TgApi
  import PathUtil
  import Fs
  import DoVideo

  /* ---------------------------------------------------------------------------------- */
  /* Send                                                                                 */

  /** `Send`'s verdict on one POST: transport, read and decode errors fail; error code 429
      asks for a resend after the announced seconds plus one, or fails when the seconds
      cannot be read; a message that is not ok fails; anything else is delivered. */
  function Classify(resp: Response): (o: Outcome)
    ensures o.Sent? <==> resp.Decoded? && resp.msg.errorCode != TooManyRequests && resp.msg.ok
    ensures o.Sent? ==> o.msg == resp.msg
    ensures o.Resend? <==>
      resp.Decoded? && resp.msg.errorCode == TooManyRequests && RetryAfter(resp.msg.description).Some?
    ensures o.Resend? ==> o.wait == RetryAfter(resp.msg.description).value + 1
  {
    match resp
    case PostFailed => Failed(RequestFailed)
    case Unreadable => Failed(ReadFailed)
    case Undecodable => Failed(DecodeFailed)
    case Decoded(msg) =>
      if msg.errorCode == TooManyRequests then
        match RetryAfter(msg.description)
        case None => Failed(BadWait(WaitText(msg.description)))
        case Some(sec) => Resend(sec + 1)
      else if !msg.ok then Failed(Refused(msg.errorCode, msg.description))
      else Sent(msg)
  }

  /** A rate-limit answer ending in " <n>" makes the sender wait n + 1 seconds and resend. */
  lemma ClassifyRateLimit(ok: bool, prefix: string, n: int)
    requires Int64Min <= n <= Int64Max
    ensures Classify(Decoded(Message(ok, TooManyRequests, prefix + " " + FormatInt(n)))) == Resend(n + 1)
  {
    RetryAfterReadsBack(prefix, n);
  }

  function Outcomes(responses: seq<Response>): (os: seq<Outcome>)
    ensures |os| == |responses|
    ensures forall k :: 0 <= k < |responses| ==> os[k] == Classify(responses[k])
  {
    seq(|responses|, k requires 0 <= k < |responses| => Classify(responses[k]))
  }

  /** `SendMessage` and `SendMediaGroup` resend until an answer other than a readable rate
      limit arrives; that answer decides: the message when it is ok, an error otherwise. */
  lemma SendSettles(responses: seq<Response>, k: nat)
    requires k < |responses|
    requires forall j :: 0 <= j < k ==> Classify(responses[j]).Resend?
    requires !Classify(responses[k]).Resend?
    ensures Deliver(Outcomes(responses)).attempts == k + 1
    ensures Deliver(Outcomes(responses)).result.Some?
    ensures Deliver(Outcomes(responses)).result.value.Ok? <==>
      responses[k].Decoded? && responses[k].msg.ok && responses[k].msg.errorCode != TooManyRequests
  {
    DeliverFirstSettled(Outcomes(responses), k);
  }

  /* ---------------------------------------------------------------------------------- */
  /* SendMediaGroup                                                                       */

  /** A media value: an open stream and the bytes it yields, a string (a URL, a file id, a
      "file://" path or an "attach://" reference), or nothing. */
  datatype Source = Stream(data: Bytes) | Ref(s: string) | NoSource

  /** The fields of an `InputMedia` at one moment. */
  datatype MediaRecord = MediaRecord(
    kind: string, media: Source, thumbnail: Source, caption: string, parseMode: string,
    supportsStreaming: bool, width: int, height: int, hasSpoiler: bool, name: string)

  const ParseMk2 := "MarkdownV2"

  /** `InputMedia`, which `SendMediaGroup` receives by reference and updates; its fields are
      held as one record. */
  class InputMedia {
    var fields: MediaRecord

    constructor (r: MediaRecord)
      ensures fields == r
    {
      fields := r;
    }

    function Record(): MediaRecord
      reads this
    {
      fields
    }

    /** The updates of the loop body for media i, once its streams are copied. */
    method Rewrite(i: nat)
      modifies this
      ensures fields == Rewritten(old(fields), i)
    {
      if fields.media.Stream? {
        fields := fields.(media := Ref(AttachMedia(i)));
      }
      if fields.thumbnail.Stream? {
        fields := fields.(thumbnail := Ref(AttachThumb(i)));
      }
      if fields.parseMode == "" {
        fields := fields.(parseMode := ParseMk2);
      }
    }
  }

  function Records(ms: seq<InputMedia>): (rs: seq<MediaRecord>)
    reads set m | m in ms
    ensures |rs| == |ms|
    ensures forall i :: 0 <= i < |ms| ==> rs[i] == ms[i].Record()
  {
    if ms == [] then [] else Records(ms[..|ms| - 1]) + [ms[|ms| - 1].Record()]
  }

  /** A part of the multipart body: a plain field, an uploaded file, or the "media" field
      holding the JSON of the records. */
  datatype Part = Field(name: string, value: string) | FilePart(field: string, filename: string, data: Bytes) | MediaField(records: seq<MediaRecord>)

  function AttachMedia(i: nat): string { "attach://media" + Itoa(i) }

  function AttachThumb(i: nat): string { "attach://thumb" + Itoa(i) }

  /** Media i after the loop body: streams replaced by references to their parts, and the
      parse mode defaulted. */
  function Rewritten(r: MediaRecord, i: nat): MediaRecord
  {
    r.(media := if r.media.Stream? then Ref(AttachMedia(i)) else r.media,
       thumbnail := if r.thumbnail.Stream? then Ref(AttachThumb(i)) else r.thumbnail,
       parseMode := if r.parseMode == "" then ParseMk2 else r.parseMode)
  }

  function RewrittenAll(rs: seq<MediaRecord>): (ws: seq<MediaRecord>)
    ensures |ws| == |rs|
    ensures forall i :: 0 <= i < |rs| ==> ws[i] == Rewritten(rs[i], i)
  {
    seq(|rs|, i requires 0 <= i < |rs| => Rewritten(rs[i], i))
  }

  /** The file parts media i contributes: its stream, then its thumbnail's stream. */
  function FilesOf(r: MediaRecord, i: nat): seq<Part>
  {
    (if r.media.Stream? then [FilePart("media" + Itoa(i), r.name, r.media.data)] else [])
    + (if r.thumbnail.Stream? then [FilePart("thumb" + Itoa(i), r.name, r.thumbnail.data)] else [])
  }

  /** The file parts of the first n media of a group, in order. */
  function UploadsUpTo(rs: seq<MediaRecord>, n: nat): seq<Part>
    requires n <= |rs|
  {
    if n == 0 then [] else UploadsUpTo(rs, n - 1) + FilesOf(rs[n - 1], n - 1)
  }

  function Uploads(rs: seq<MediaRecord>): seq<Part>
  {
    UploadsUpTo(rs, |rs|)
  }

  /** The body one attempt sends: chat_id, the uploads, and the rewritten records. */
  function Request(chatID: string, rs: seq<MediaRecord>): seq<Part>
  {
    [Field("chat_id", chatID)] + Uploads(rs) + [MediaField(RewrittenAll(rs))]
  }

  predicate HasStream(r: MediaRecord)
  {
    r.media.Stream? || r.thumbnail.Stream?
  }

  /** Every stream of the group is uploaded, under the name its reference points at. */
  lemma {:induction false} UploadsUpToComplete(rs: seq<MediaRecord>, n: nat, i: nat)
    requires i < n <= |rs|
    ensures rs[i].media.Stream? ==> FilePart("media" + Itoa(i), rs[i].name, rs[i].media.data) in UploadsUpTo(rs, n)
    ensures rs[i].thumbnail.Stream? ==> FilePart("thumb" + Itoa(i), rs[i].name, rs[i].thumbnail.data) in UploadsUpTo(rs, n)
    decreases n
  {
    assert UploadsUpTo(rs, n) == UploadsUpTo(rs, n - 1) + FilesOf(rs[n - 1], n - 1);
    if i < n - 1 {
      UploadsUpToComplete(rs, n - 1, i);
    } else {
      var f := FilesOf(rs[i], i);
      if rs[i].media.Stream? {
        assert f[0] == FilePart("media" + Itoa(i), rs[i].name, rs[i].media.data);
      }
      if rs[i].thumbnail.Stream? {
        assert f[|f| - 1] == FilePart("thumb" + Itoa(i), rs[i].name, rs[i].thumbnail.data);
      }
    }
  }

  lemma UploadsComplete(rs: seq<MediaRecord>, i: nat)
    requires i < |rs|
    ensures rs[i].media.Stream? ==> FilePart("media" + Itoa(i), rs[i].name, rs[i].media.data) in Uploads(rs)
    ensures rs[i].thumbnail.Stream? ==> FilePart("thumb" + Itoa(i), rs[i].name, rs[i].thumbnail.data) in Uploads(rs)
  {
    UploadsUpToComplete(rs, |rs|, i);
  }

  lemma {:induction false} UploadsUpToEmpty(rs: seq<MediaRecord>, n: nat)
    requires n <= |rs|
    ensures UploadsUpTo(rs, n) == [] <==> forall i :: 0 <= i < n ==> !HasStream(rs[i])
    decreases n
  {
    if n > 0 {
      UploadsUpToEmpty(rs, n - 1);
    }
  }

  /** A group uploads nothing exactly when none of its media holds a stream. */
  lemma UploadsEmpty(rs: seq<MediaRecord>)
    ensures Uploads(rs) == [] <==> forall i :: 0 <= i < |rs| ==> !HasStream(rs[i])
  {
    UploadsUpToEmpty(rs, |rs|);
  }

  /** After the rewrite no media holds a stream, and rewriting again changes nothing. */
  lemma RewrittenSettled(rs: seq<MediaRecord>)
    ensures forall i :: 0 <= i < |rs| ==> !HasStream(RewrittenAll(rs)[i])
    ensures RewrittenAll(RewrittenAll(rs)) == RewrittenAll(rs)
  {
  }

  /** `SendMediaGroup`'s loop as written: each media of the caller's slice is rewritten in
      place while its streams are copied into the body. The references are taken to be
      distinct. */
  method WriteMediaGroup(chatID: string, medias: seq<InputMedia>) returns (parts: seq<Part>)
    requires forall i, j :: 0 <= i < |medias| && 0 <= j < |medias| && i != j ==> medias[i] != medias[j]
    modifies set m | m in medias
    ensures parts == Request(chatID, old(Records(medias)))
    ensures Records(medias) == RewrittenAll(old(Records(medias)))
  {
    ghost var before := Records(medias);
    parts := [Field("chat_id", chatID)];
    var i := 0;
    while i < |medias|
      invariant i <= |medias|
      invariant forall k :: 0 <= k < i ==> medias[k].Record() == Rewritten(before[k], k)
      invariant forall k :: i <= k < |medias| ==> medias[k].Record() == before[k]
      invariant parts == [Field("chat_id", chatID)] + UploadsUpTo(before, i)
    {
      parts := WriteMedia(chatID, medias, i, before, parts);
      i := i + 1;
    }
    RecordsRewritten(medias, before);
    parts := parts + [MediaField(Records(medias))];
  }

  /** The loop body for media i: its streams copied into the body, then its fields
      rewritten; the other media are left alone. */
  method WriteMedia(chatID: string, medias: seq<InputMedia>, i: nat, ghost before: seq<MediaRecord>, parts: seq<Part>)
    returns (out: seq<Part>)
    requires i < |medias| == |before|
    requires forall p, q :: 0 <= p < |medias| && 0 <= q < |medias| && p != q ==> medias[p] != medias[q]
    requires medias[i].Record() == before[i]
    requires parts == [Field("chat_id", chatID)] + UploadsUpTo(before, i)
    modifies medias[i]
    ensures out == [Field("chat_id", chatID)] + UploadsUpTo(before, i + 1)
    ensures medias[i].Record() == Rewritten(before[i], i)
    ensures forall k :: 0 <= k < |medias| && k != i ==> medias[k].Record() == old(medias[k].Record())
  {
    var m := medias[i];
    out := CopyStreams(parts, m.Record(), i);
    m.Rewrite(i);
  }

  lemma RecordsRewritten(medias: seq<InputMedia>, before: seq<MediaRecord>)
    requires |medias| == |before|
    requires forall k :: 0 <= k < |medias| ==> medias[k].Record() == Rewritten(before[k], k)
    ensures Records(medias) == RewrittenAll(before)
  {
  }

  /** Copies the streams of media i into the body: its media, then its thumbnail. */
  method CopyStreams(parts: seq<Part>, r: MediaRecord, i: nat) returns (out: seq<Part>)
    ensures out == parts + FilesOf(r, i)
  {
    out := parts;
    if r.media.Stream? {
      out := out + [FilePart("media" + Itoa(i), r.name, r.media.data)];
    }
    if r.thumbnail.Stream? {
      out := out + [FilePart("thumb" + Itoa(i), r.name, r.thumbnail.data)];
    }
  }

  /** The bodies of n successive attempts as written: a resend passes the slice the first
      attempt rewrote. */
  function RequestsAsWritten(chatID: string, rs: seq<MediaRecord>, n: nat): (reqs: seq<seq<Part>>)
    ensures |reqs| == n
    ensures n > 0 ==> reqs[0] == Request(chatID, rs)
    decreases n
  {
    if n == 0 then [] else [Request(chatID, rs)] + RequestsAsWritten(chatID, RewrittenAll(rs), n - 1)
  }

  /** The resend after a rate limit carries no file at all, although its "media" field
      still refers to "attach://media<i>" for every media that was a stream. */
  lemma ResendLosesUploads(chatID: string, rs: seq<MediaRecord>, i: nat)
    requires i < |rs| && rs[i].media.Stream?
    ensures FilePart("media" + Itoa(i), rs[i].name, rs[i].media.data) in RequestsAsWritten(chatID, rs, 2)[0]
    ensures RequestsAsWritten(chatID, rs, 2)[1]
         == [Field("chat_id", chatID), MediaField(RewrittenAll(rs))]
    ensures RewrittenAll(rs)[i].media == Ref(AttachMedia(i))
  {
    UploadsComplete(rs, i);
    RewrittenSettled(rs);
    UploadsEmpty(RewrittenAll(rs));
    var first := Request(chatID, rs);
    assert first == [Field("chat_id", chatID)] + Uploads(rs) + [MediaField(RewrittenAll(rs))];
  }

  /** The loop as the resend needs it: the body is built from the records without touching
      the caller's media, so every attempt uploads the same streams. */
  method BuildMediaGroup(chatID: string, records: seq<MediaRecord>) returns (parts: seq<Part>)
    ensures parts == Request(chatID, records)
  {
    parts := [Field("chat_id", chatID)];
    var rewritten := [];
    var i := 0;
    while i < |records|
      invariant i <= |records|
      invariant |rewritten| == i
      invariant forall k :: 0 <= k < i ==> rewritten[k] == Rewritten(records[k], k)
      invariant parts == [Field("chat_id", chatID)] + UploadsUpTo(records, i)
    {
      parts := CopyStreams(parts, records[i], i);
      rewritten := rewritten + [Rewritten(records[i], i)];
      i := i + 1;
    }
    assert rewritten == RewrittenAll(records);
    parts := parts + [MediaField(rewritten)];
  }

  /** With the body built afresh, the n-th attempt uploads every stream the first did. */
  lemma ResendKeepsUploads(chatID: string, rs: seq<MediaRecord>, i: nat)
    requires i < |rs| && rs[i].media.Stream?
    ensures FilePart("media" + Itoa(i), rs[i].name, rs[i].media.data) in Request(chatID, rs)
  {
    UploadsComplete(rs, i);
  }

  /* ---------------------------------------------------------------------------------- */
  /* SendVideo                                                                            */

  /** The video `SendVideo` sends: the path itself when its extension is ".mp4" in any
      case, otherwise the path with its extension replaced by ".mp4". */
  function Mp4Path(path: string): string
  {
    var ext := PathUtil.Ext(path);
    if ToLower(ext) != ".mp4" then TrimSuffix(path, ext) + ".mp4" else path
  }

  /** A video that is not MP4 is converted to the same target `Convt` picks by default,
      which is a different path. */
  lemma Mp4PathIsConvtTarget(path: string)
    ensures ToLower(PathUtil.Ext(path)) != ".mp4" ==>
      DoVideo.ConvtTarget(path, "") == Ok(Mp4Path(path)) && Mp4Path(path) != path
    ensures ToLower(PathUtil.Ext(path)) == ".mp4" ==> Mp4Path(path) == path
  {
    DoVideo.ConvtDefaultTarget(path, "");
  }

  /** The extension of a path ending in ".mp4" is ".mp4". */
  lemma ExtOfMp4(stem: string)
    ensures PathUtil.Ext(stem + ".mp4") == ".mp4"
  {
    var p := stem + ".mp4";
    var d := LastIndex(p, '.');
    assert p[|stem|] == '.';
    assert d == |stem|;
    assert p[|stem|..] == ".mp4";
  }

  lemma Mp4PathExt(path: string)
    ensures ToLower(PathUtil.Ext(Mp4Path(path))) == ".mp4"
  {
    var ext := PathUtil.Ext(path);
    if ToLower(ext) != ".mp4" {
      var stem := TrimSuffix(path, ext);
      assert Mp4Path(path) == stem + ".mp4";
      ExtOfMp4(stem);
      DoVideo.LowerMp4();
    }
  }


  predicate NeedsSplit(threshold: int, size: int)
  {
    threshold != 0 && size > threshold
  }

  datatype VideoError =
    | ConvertFailed(msg: string)
    | RemoveFailed(err: Fs.FsError)
    | StatFailed(path: string)
    | CutFailed(msg: string)
    | MediaFailed(msg: string)

  /** The video to send, its size, and whether it is to be cut into segments. */
  datatype Prepared = Prepared(newPath: string, size: int, split: bool)

  /** The size `os.Stat` reports; other kinds of node are given size 0. */
  function SizeOf(n: Fs.Node): nat
  {
    if n.File? then |n.data| else 0
  }

  /** The files after a successful conversion: the converted video written, the original
      removed. */
  function Converted(nodes: map<string, Fs.Node>, path: string, output: Bytes): map<string, Fs.Node>
  {
    nodes[Mp4Path(path) := Fs.File(output)] - {path}
  }

  /** The first steps of `SendVideo`: convert a video that is not MP4 (FFmpeg's outcome is
      `ffmpeg`) and remove the original, then read the size of the video to send. */
  method PrepareVideo(disk: Fs.Disk, path: string, ffmpeg: Result<Bytes, string>, threshold: int)
    returns (r: Result<Prepared, VideoError>)
    modifies disk`nodes
    ensures Mp4Path(path) == path ==> disk.nodes == old(disk.nodes)
    ensures Mp4Path(path) != path && ffmpeg.Err? ==>
      r == Err(ConvertFailed(ffmpeg.error)) && disk.nodes == old(disk.nodes)
    ensures Mp4Path(path) != path && ffmpeg.Ok? ==>
      if path in disk.faulty || path !in old(disk.nodes) then
        r.Err? && r.error.RemoveFailed? && disk.nodes == old(disk.nodes)[Mp4Path(path) := Fs.File(ffmpeg.value)]
      else disk.nodes == Converted(old(disk.nodes), path, ffmpeg.value)
    ensures r.Ok? ==>
      && r.value.newPath == Mp4Path(path)
      && r.value.newPath in disk.nodes
      && r.value.size == SizeOf(disk.nodes[r.value.newPath])
      && r.value.split == NeedsSplit(threshold, r.value.size)
    ensures r.Ok? <==>
      && (Mp4Path(path) == path || (ffmpeg.Ok? && path !in disk.faulty && path in old(disk.nodes)))
      && Fs.StatOf(disk.nodes, disk.faulty, Mp4Path(path)).Found?
    ensures r.Err? ==> r.error.ConvertFailed? || r.error.RemoveFailed? || r.error.StatFailed?
    ensures r.Err? && r.error.StatFailed? ==> !Fs.StatOf(disk.nodes, disk.faulty, Mp4Path(path)).Found?
  {
    var newPath := Mp4Path(path);
    if newPath != path {
      if ffmpeg.Err? {
        return Err(ConvertFailed(ffmpeg.error));
      }
      disk.nodes := disk.nodes[newPath := Fs.File(ffmpeg.value)];
      var err := disk.Remove(path);
      if err.Some? {
        return Err(RemoveFailed(err.value));
      }
    }
    var info := disk.Stat(newPath);
    if !info.Found? {
      return Err(StatFailed(newPath));
    }
    var size := SizeOf(info.node);
    r := Ok(Prepared(newPath, size, NeedsSplit(threshold, size)));
  }

  /** The path `SendVideo` hands to the cutter as written: the original video. */
  function CutSourceAsWritten(path: string): string
  {
    path
  }

  /** The path the cutter should read: the video that was measured. */
  function CutSource(path: string): string
  {
    Mp4Path(path)
  }

  /** As written, after a conversion the cutter is pointed at the file just removed. */
  lemma CutReadsRemovedFile(nodes: map<string, Fs.Node>, path: string, output: Bytes)
    requires Mp4Path(path) != path
    ensures CutSourceAsWritten(path) !in Converted(nodes, path, output)
  {
  }

  /** The corrected cutter reads the video `PrepareVideo` measured: after a conversion that
      is the converted file, otherwise the original, which is left in place. */
  lemma CutReadsConvertedVideo(nodes: map<string, Fs.Node>, path: string, output: Bytes, p: Prepared)
    requires p.newPath == Mp4Path(path)
    ensures CutSource(path) == p.newPath
    ensures Mp4Path(path) != path ==>
      CutSource(path) in Converted(nodes, path, output) && Converted(nodes, path, output)[CutSource(path)] == Fs.File(output)
    ensures Mp4Path(path) == path && path in nodes ==> CutSource(path) in nodes
  {
  }

  /** The paths to send: the video itself, or the segments the cutter made of it. */
  function Segments(path: string, p: Prepared, cut: string -> Result<seq<string>, string>): (r: Result<seq<string>, VideoError>)
    ensures !p.split ==> r == Ok([p.newPath])
  {
    if !p.split then Ok([p.newPath])
    else
      match cut(CutSource(path))
      case Err(m) => Err(CutFailed(m))
      case Ok(paths) => Ok(paths)
  }

  /** Media i of n: the title as caption on the first only, and a "Pnn" name when there
      are two segments or more. */
  function Labelled(m: MediaRecord, title: string, i: nat, n: nat): MediaRecord
  {
    m.(caption := if i == 0 then title else m.caption,
       name := if n >= 2 then "P" + Pad2(i + 1) else m.name)
  }

  /** Segments are told apart by their names. */
  lemma LabelsDistinct(m1: MediaRecord, m2: MediaRecord, title: string, i: nat, j: nat, n: nat)
    requires n >= 2 && i != j
    ensures Labelled(m1, title, i, n).name != Labelled(m2, title, j, n).name
  {
    var a, b := Pad2(i + 1), Pad2(j + 1);
    if "P" + a == "P" + b {
      assert a == ("P" + a)[1..];
      Pad2Injective(i + 1, j + 1);
    }
  }

  /** The loop body of `SendVideo` for segment i of n. */
  method Label(made: MediaRecord, title: string, i: nat, n: nat) returns (media: MediaRecord)
    ensures media == Labelled(made, title, i, n)
  {
    media := made;
    if i == 0 {
      media := media.(caption := title);
    }
    if n >= 2 {
      media := media.(name := "P" + Pad2(i + 1));
    }
  }

  /** The media `SendVideo` builds, one per segment, from the media `gen` makes of a
      path with an empty title; the first that cannot be made ends the send. */
  method VideoMedias(title: string, dstPaths: seq<string>, gen: string -> Result<MediaRecord, string>)
    returns (r: Result<seq<MediaRecord>, VideoError>)
    ensures r.Ok? <==> forall k :: 0 <= k < |dstPaths| ==> gen(dstPaths[k]).Ok?
    ensures r.Err? ==> exists k :: (
      && 0 <= k < |dstPaths| && gen(dstPaths[k]).Err?
      && r.error == MediaFailed(gen(dstPaths[k]).error)
      && forall j :: 0 <= j < k ==> gen(dstPaths[j]).Ok?)
    ensures r.Ok? ==> (
      && |r.value| == |dstPaths|
      && forall i :: 0 <= i < |dstPaths| ==> r.value[i] == Labelled(gen(dstPaths[i]).value, title, i, |dstPaths|))
  {
    var medias := [];
    var i := 0;
    while i < |dstPaths|
      invariant i <= |dstPaths|
      invariant forall k :: 0 <= k < i ==> gen(dstPaths[k]).Ok?
      invariant |medias| == i
      invariant forall k :: 0 <= k < i ==> medias[k] == Labelled(gen(dstPaths[k]).value, title, k, |dstPaths|)
    {
      var made := gen(dstPaths[i]);
      if made.Err? {
        r := Err(MediaFailed(made.error));
        assert forall j :: 0 <= j < i ==> gen(dstPaths[j]).Ok?;
        assert gen(dstPaths[i]).Err? && r.error == MediaFailed(gen(dstPaths[i]).error);
        return;
      }
      var media := Label(made.value, title, i, |dstPaths|);
      medias := medias + [media];
      i := i + 1;
    }
    r := Ok(medias);
  }

  /** The files `SendVideo` removes when it returns: the directory of the segments when
      there are several, otherwise the thumbnail next to the video; and the video itself
      when `delete` is set. */
  function Deletions(dstPaths: seq<string>, newPath: string, delete: bool): (r: seq<string>)
    ensures |r| == if delete then 2 else 1
    ensures |dstPaths| >= 2 ==> r[0] == PathUtil.Dir(dstPaths[0])
    ensures |dstPaths| < 2 ==> r[0] == TrimSuffix(newPath, PathUtil.Ext(newPath)) + ".jpg"
    ensures delete ==> r[1] == newPath
  {
    var first := if |dstPaths| >= 2 then PathUtil.Dir(dstPaths[0])
                 else TrimSuffix(newPath, PathUtil.Ext(newPath)) + ".jpg";
    [first] + (if delete then [newPath] else [])
  }

  /** A video sent whole is kept unless `delete` is set: its thumbnail is another path. */
  lemma KeepsVideo(path: string, dstPaths: seq<string>)
    requires |dstPaths| < 2
    ensures Mp4Path(path) !in Deletions(dstPaths, Mp4Path(path), false)
  {
    var v := Mp4Path(path);
    var ext := PathUtil.Ext(v);
    Mp4PathExt(path);
  }
}
