/** Package `dobdpan`: uploads a file to Baidu's cloud storage in three steps. `precreate`
    announces the file and learns whether the server already has it; `superfile` sends the
    file in 4 MiB parts numbered 0, 1, 2, ...; `create` assembles the parts from the list of
    their MD5 digests.

    The server's answers are parameters: the decoded `precreate` answer, a function from
    each part sent to the decoded `superfile` answer, and the decoded `create` answer; an
    `Err` stands for a network error or an answer that does not decode. MD5 is a function
    parameter too. */
module DoBdPan {
  import opened Wrappers
  import opened Strs
  import opened Streams
  import opened Hex

  /** The part size and the size of the read buffer: 4 MiB. */
  const SplitSize: nat := 4 * 1024 * 1024

  const TagHashOne: string := "5910a591dd8fc18c32a8f3df4fdc1761"
  const TagHashMore: string := "a5fc157d78e6ad1c7e114b056c92821e"

  /** The fixed block lists `precreate` sends for a file of one part and of several. */
  const TagOneSeq: string := "[\"5910a591dd8fc18c32a8f3df4fdc1761\"]"
  const TagMoreSeq: string := "[\"5910a591dd8fc18c32a8f3df4fdc1761\",\"a5fc157d78e6ad1c7e114b056c92821e\"]"

  /** `json.Marshal` of a list of strings that need no escaping (no quote, no backslash,
      no control character), such as hexadecimal digests. */
  function JsonStrings(items: seq<string>): string
  {
    "[" + JsonItems(items) + "]"
  }

  function JsonItems(items: seq<string>): string
  {
    if items == [] then ""
    else if |items| == 1 then "\"" + items[0] + "\""
    else "\"" + items[0] + "\"," + JsonItems(items[1..])
  }

  /** `json.Marshal` of the digest list that `create` sends. The list is nil until its first
      digest is appended, and a nil slice marshals to `null`, not to an empty array. */
  function MarshalDigests(list: seq<string>): (text: string)
    ensures text == "null" <==> list == []
    ensures list != [] ==> text == JsonStrings(list)
  {
    if list == [] then "null"
    else
      assert JsonStrings(list)[0] == '[' && "null"[0] == 'n';
      JsonStrings(list)
  }

  /** The fixed one-part block list is the JSON array of one fixed digest. */
  lemma TagOneIsJson()
    ensures TagOneSeq == JsonStrings([TagHashOne])
  {
  }

  /** The block list `precreate` announces for a file of `size` bytes. */
  function BlockListTag(size: int): string
  {
    if size <= SplitSize then TagOneSeq else TagMoreSeq
  }

  /** The one-entry list exactly when the file fits in one part. */
  lemma BlockListTagChoice(size: int)
    ensures BlockListTag(size) == TagOneSeq <==> size <= SplitSize
    ensures BlockListTag(size) == TagMoreSeq <==> size > SplitSize
  {
    assert TagOneSeq[2] != TagMoreSeq[2] || |TagOneSeq| != |TagMoreSeq|;
  }

  /* ---------------------------------------------------------------------------------- */
  /* Requests and answers                                                                */

  /** The `precreate` form. The path goes out URL-escaped; escaping is left abstract. */
  datatype PreForm = PreForm(autoinit: string, path: string, blockList: string, localCtime: string)

  datatype PreResp = PreResp(errno: int, returnType: int, uploadid: string)

  /** One `superfile` request: the remote path, the upload id, the part number and its bytes. */
  datatype Part = Part(path: string, uploadid: string, partseq: nat, data: Bytes)

  datatype UpResp = UpResp(errCode: int, errMsg: string)

  /** The `create` form. */
  datatype CreateForm = CreateForm(isdir: string, rtype: string, path: string, uploadid: string,
                                   blockList: string, size: string)

  datatype CreateResp = CreateResp(errno: int)

  datatype Error =
    | PrecreateFailed(msg: string)
    | UnknownReturnType(returnType: int)
    | ReadFailed(msg: string)
    | PartFailed(partseq: nat, msg: string)
    | CreateFailed(msg: string)

  /** `precreate`'s verdict on its answer: any nonzero `errno` is an error. */
  function PrecreateCheck(answer: Result<PreResp, string>): (r: Result<PreResp, Error>)
    ensures r.Ok? <==> answer.Ok? && answer.value.errno == 0
    ensures r.Ok? ==> r.value == answer.value
  {
    match answer
    case Err(m) => Err(PrecreateFailed(m))
    case Ok(resp) => if resp.errno != 0 then Err(PrecreateFailed("errno")) else Ok(resp)
  }

  /** `superfile`'s verdict: a non-empty `error_msg` is an error, whatever `error_code` says. */
  function PartCheck(partseq: nat, answer: Result<UpResp, string>): (r: Option<Error>)
    ensures r.None? <==> answer.Ok? && answer.value.errMsg == ""
    ensures r.Some? ==> r.value.PartFailed? && r.value.partseq == partseq
  {
    match answer
    case Err(m) => Some(PartFailed(partseq, m))
    case Ok(resp) => if resp.errMsg != "" then Some(PartFailed(partseq, resp.errMsg)) else None
  }

  /** `create`'s verdict: any nonzero `errno` is an error. */
  function CreateCheck(answer: Result<CreateResp, string>): (r: Option<Error>)
    ensures r.None? <==> answer.Ok? && answer.value.errno == 0
  {
    match answer
    case Err(m) => Some(CreateFailed(m))
    case Ok(resp) => if resp.errno != 0 then Some(CreateFailed("errno")) else None
  }

  /** `return err` after a negative count: that error, which may be nil. */
  function ReadError(e: Option<string>): Option<Error>
  {
    match e
    case None => None
    case Some(m) => Some(ReadFailed(m))
  }

  /* ---------------------------------------------------------------------------------- */
  /* The specification of the part loop                                                  */

  /** The loop's outcome: its error, the parts sent, the digests recorded, and whether it
      reached `create`. */
  datatype Sending = Sending(err: Option<Error>, sent: seq<Part>, blocks: seq<string>, finished: bool)

  /** `fmt.Sprintf("%x", md5.Sum(data))`. */
  function Digest(md5: Bytes -> Bytes, data: Bytes): string
  {
    EncodeLower(md5(data))
  }

  /** The loop of `UploadFile` from part number `partseq` on, with the parts sent and the
      digests recorded so far in `acc`: a negative count returns the read's error, a zero
      count (or end of file) ends the loop, and every positive count is sent as the next
      part and, once accepted, has its digest recorded. */
  function SendFrom(path: string, uploadid: string, calls: seq<ReadResult>, partseq: nat,
                    answer: Part -> Result<UpResp, string>, md5: Bytes -> Bytes, acc: Sending): Sending
    decreases |calls|
  {
    if calls == [] then acc.(finished := true)
    else
      var r := calls[0];
      if r.n < 0 then acc.(err := ReadError(r.err))
      else if r.n == 0 then acc.(finished := true)
      else
        var part := Part(path, uploadid, partseq, r.data);
        match PartCheck(partseq, answer(part))
        case Some(e) => acc.(err := Some(e), sent := acc.sent + [part])
        case None =>
          SendFrom(path, uploadid, calls[1..], partseq + 1, answer, md5,
                   acc.(sent := acc.sent + [part], blocks := acc.blocks + [Digest(md5, r.data)]))
  }

  const NothingSent := Sending(None, [], [], false)

  /** The whole loop from part number `partseq`, before anything is sent. */
  function SendSpec(path: string, uploadid: string, calls: seq<ReadResult>, partseq: nat,
                    answer: Part -> Result<UpResp, string>, md5: Bytes -> Bytes): Sending
  {
    SendFrom(path, uploadid, calls, partseq, answer, md5, NothingSent)
  }

  /** What was sent before does not influence what is sent next. */
  lemma {:induction false} SendFromFrame(path: string, uploadid: string, calls: seq<ReadResult>, partseq: nat,
                                         answer: Part -> Result<UpResp, string>, md5: Bytes -> Bytes, acc: Sending)
    requires acc.err.None? && !acc.finished
    ensures var r := SendSpec(path, uploadid, calls, partseq, answer, md5);
      SendFrom(path, uploadid, calls, partseq, answer, md5, acc)
        == r.(sent := acc.sent + r.sent, blocks := acc.blocks + r.blocks)
    decreases |calls|
  {
    if calls != [] && calls[0].n > 0 {
      var part := Part(path, uploadid, partseq, calls[0].data);
      var d := Digest(md5, calls[0].data);
      if PartCheck(partseq, answer(part)).None? {
        var acc1 := acc.(sent := acc.sent + [part], blocks := acc.blocks + [d]);
        var one := NothingSent.(sent := [part], blocks := [d]);
        SendFromFrame(path, uploadid, calls[1..], partseq + 1, answer, md5, acc1);
        SendFromFrame(path, uploadid, calls[1..], partseq + 1, answer, md5, one);
        assert NothingSent.sent + [part] == [part] && NothingSent.blocks + [d] == [d];
        SendFromFrameJoin(acc, acc1, one, SendSpec(path, uploadid, calls[1..], partseq + 1, answer, md5), part, d);
      } else {
        assert acc.blocks + [] == acc.blocks;
      }
    }
  }

  lemma SendFromFrameJoin(acc: Sending, acc1: Sending, one: Sending, r: Sending, part: Part, d: string)
    requires acc1 == acc.(sent := acc.sent + [part], blocks := acc.blocks + [d])
    requires one == NothingSent.(sent := [part], blocks := [d])
    ensures r.(sent := acc1.sent + r.sent, blocks := acc1.blocks + r.blocks)
         == (r.(sent := one.sent + r.sent, blocks := one.blocks + r.blocks)).(
              sent := acc.sent + (one.sent + r.sent), blocks := acc.blocks + (one.blocks + r.blocks))
  {
    assert acc1.sent + r.sent == acc.sent + ([part] + r.sent);
    assert acc1.blocks + r.blocks == acc.blocks + ([d] + r.blocks);
  }

  /** One unfolding of `SendSpec` at a positive count. */
  lemma SendSpecStep(path: string, uploadid: string, calls: seq<ReadResult>, partseq: nat,
                     answer: Part -> Result<UpResp, string>, md5: Bytes -> Bytes)
    requires calls != [] && calls[0].n > 0
    ensures var part := Part(path, uploadid, partseq, calls[0].data);
      var s := SendSpec(path, uploadid, calls, partseq, answer, md5);
      var rest := SendSpec(path, uploadid, calls[1..], partseq + 1, answer, md5);
      && (PartCheck(partseq, answer(part)).Some? ==> s == Sending(PartCheck(partseq, answer(part)), [part], [], false))
      && (PartCheck(partseq, answer(part)).None? ==>
            s == rest.(sent := [part] + rest.sent, blocks := [Digest(md5, calls[0].data)] + rest.blocks))
  {
    var part := Part(path, uploadid, partseq, calls[0].data);
    if PartCheck(partseq, answer(part)).None? {
      var one := NothingSent.(sent := [part], blocks := [Digest(md5, calls[0].data)]);
      assert NothingSent.sent + [part] == [part] && NothingSent.blocks + [Digest(md5, calls[0].data)] == one.blocks;
      SendFromFrame(path, uploadid, calls[1..], partseq + 1, answer, md5, one);
    }
  }

  /** How many answers of the reader a run of the part loop consumes, out of `available`:
      one per `Read` call, a rejected part's included, and none once the recorded answers
      are used up, since the reader then stays at end of file. */
  function ReadsTaken(s: Sending, available: nat): nat
  {
    if s.err.Some? && s.err.value.PartFailed? then |s.sent|
    else if |s.sent| + 1 <= available then |s.sent| + 1
    else available
  }

  /** A read with no bytes ends the loop there: the answers consumed are those before it
      and, when it was a recorded answer, that one. */
  lemma SendStopTaken(path: string, uploadid: string, calls: seq<ReadResult>, partseq: nat,
                      answer: Part -> Result<UpResp, string>, md5: Bytes -> Bytes, acc: Sending)
    requires partseq <= |calls| && |acc.sent| == partseq && acc.err.None?
    requires ReadAt(calls, partseq).n <= 0
    ensures var s := SendFrom(path, uploadid, calls[partseq..], partseq, answer, md5, acc);
      && s == (if ReadAt(calls, partseq).n < 0 then acc.(err := ReadError(ReadAt(calls, partseq).err))
               else acc.(finished := true))
      && ReadsTaken(s, |calls|) == (if partseq < |calls| then partseq + 1 else partseq)
  {
    if partseq < |calls| {
      assert calls[partseq..][0] == calls[partseq];
    }
  }

  /** A rejected part ends the loop with its read consumed. */
  lemma SendRejectTaken(path: string, uploadid: string, calls: seq<ReadResult>, partseq: nat,
                        answer: Part -> Result<UpResp, string>, md5: Bytes -> Bytes, acc: Sending)
    requires partseq < |calls| && |acc.sent| == partseq && calls[partseq].n > 0
    requires PartCheck(partseq, answer(Part(path, uploadid, partseq, calls[partseq].data))).Some?
    ensures var part := Part(path, uploadid, partseq, calls[partseq].data);
      var s := SendFrom(path, uploadid, calls[partseq..], partseq, answer, md5, acc);
      && s == acc.(err := PartCheck(partseq, answer(part)), sent := acc.sent + [part])
      && ReadsTaken(s, |calls|) == partseq + 1
  {
    assert calls[partseq..][0] == calls[partseq];
  }

  /** The bytes of a run of parts, in order. */
  function PartsData(parts: seq<Part>): Bytes
  {
    if parts == [] then [] else parts[0].data + PartsData(parts[1..])
  }

  /** What the part loop guarantees: parts go out in read order, numbered on from
      `partseq`, each carrying exactly the bytes of its read; every accepted part has its
      digest recorded in order, and a rejected part ends the loop without one. */
  ghost predicate SentInOrder(path: string, uploadid: string, calls: seq<ReadResult>, partseq: nat,
                              answer: Part -> Result<UpResp, string>, md5: Bytes -> Bytes, s: Sending)
  {
    && |s.sent| <= |calls|
    && (forall k :: 0 <= k < |s.sent| ==>
          s.sent[k] == Part(path, uploadid, partseq + k, calls[k].data) && calls[k].n > 0)
    && (s.err.Some? && s.err.value.PartFailed? ==>
          |s.sent| >= 1 && |s.blocks| == |s.sent| - 1 && s.err.value.partseq == partseq + |s.blocks|
          && PartCheck(s.err.value.partseq, answer(s.sent[|s.blocks|])).Some?)
    && (!(s.err.Some? && s.err.value.PartFailed?) ==> |s.blocks| == |s.sent|)
    && (forall k :: 0 <= k < |s.blocks| && k < |s.sent| ==> s.blocks[k] == Digest(md5, s.sent[k].data))
    && (s.finished ==> s.err.None?)
  }

  lemma {:induction false} SendOrder(path: string, uploadid: string, calls: seq<ReadResult>, partseq: nat,
                                     answer: Part -> Result<UpResp, string>, md5: Bytes -> Bytes)
    ensures SentInOrder(path, uploadid, calls, partseq, answer, md5, SendSpec(path, uploadid, calls, partseq, answer, md5))
    decreases |calls|
  {
    var s := SendSpec(path, uploadid, calls, partseq, answer, md5);
    if calls != [] && calls[0].n > 0 {
      var part := Part(path, uploadid, partseq, calls[0].data);
      SendSpecStep(path, uploadid, calls, partseq, answer, md5);
      if PartCheck(partseq, answer(part)).None? {
        SendOrder(path, uploadid, calls[1..], partseq + 1, answer, md5);
        var rest := SendSpec(path, uploadid, calls[1..], partseq + 1, answer, md5);
        SendOrderCons(path, uploadid, calls, partseq, answer, md5, rest, s);
      }
    }
  }

  /** An accepted part put in front of an ordered run keeps it ordered. */
  lemma SendOrderCons(path: string, uploadid: string, calls: seq<ReadResult>, partseq: nat,
                      answer: Part -> Result<UpResp, string>, md5: Bytes -> Bytes, rest: Sending, s: Sending)
    requires calls != [] && calls[0].n > 0
    requires SentInOrder(path, uploadid, calls[1..], partseq + 1, answer, md5, rest)
    requires s == rest.(sent := [Part(path, uploadid, partseq, calls[0].data)] + rest.sent,
                        blocks := [Digest(md5, calls[0].data)] + rest.blocks)
    ensures SentInOrder(path, uploadid, calls, partseq, answer, md5, s)
  {
    var part := Part(path, uploadid, partseq, calls[0].data);
    assert forall k :: 0 <= k < |s.sent| ==>
        s.sent[k] == Part(path, uploadid, partseq + k, calls[k].data) && calls[k].n > 0 by {
      forall k | 0 <= k < |s.sent|
        ensures s.sent[k] == Part(path, uploadid, partseq + k, calls[k].data) && calls[k].n > 0
      {
        if k > 0 { assert s.sent[k] == rest.sent[k - 1] && calls[k] == calls[1..][k - 1]; }
      }
    }
    assert forall k :: 0 <= k < |s.blocks| && k < |s.sent| ==> s.blocks[k] == Digest(md5, s.sent[k].data) by {
      forall k | 0 <= k < |s.blocks| && k < |s.sent|
        ensures s.blocks[k] == Digest(md5, s.sent[k].data)
      {
        if k > 0 { assert s.blocks[k] == rest.blocks[k - 1] && s.sent[k] == rest.sent[k - 1]; }
      }
    }
    assert s.err.Some? && s.err.value.PartFailed? ==>
        s.sent[|s.blocks|] == rest.sent[|rest.blocks|];
  }

  /** The parts carry, in order, exactly the bytes the reads delivered. */
  lemma {:induction false} SendPayload(path: string, uploadid: string, calls: seq<ReadResult>, partseq: nat,
                                       answer: Part -> Result<UpResp, string>, md5: Bytes -> Bytes)
    ensures var s := SendSpec(path, uploadid, calls, partseq, answer, md5);
      |s.sent| <= |calls| && PartsData(s.sent) == Payload(calls[..|s.sent|])
    decreases |calls|
  {
    var s := SendSpec(path, uploadid, calls, partseq, answer, md5);
    if calls == [] || calls[0].n <= 0 {
      assert calls[..0] == [];
    } else {
      var part := Part(path, uploadid, partseq, calls[0].data);
      SendSpecStep(path, uploadid, calls, partseq, answer, md5);
      if PartCheck(partseq, answer(part)).Some? {
        assert calls[..1] == [calls[0]];
        assert Payload([calls[0]]) == Payload([]) + calls[0].data;
      } else {
        SendPayload(path, uploadid, calls[1..], partseq + 1, answer, md5);
        var rest := SendSpec(path, uploadid, calls[1..], partseq + 1, answer, md5);
        assert s.sent == [part] + rest.sent;
        assert s.sent[1..] == rest.sent;
        assert calls[..|s.sent|] == [calls[0]] + calls[1..][..|rest.sent|];
        PayloadCons(calls[0], calls[1..][..|rest.sent|]);
      }
    }
  }

  /** Against an honest reader with a 4 MiB buffer no part is larger than 4 MiB. */
  lemma PartsBounded(path: string, uploadid: string, calls: seq<ReadResult>, partseq: nat,
                     answer: Part -> Result<UpResp, string>, md5: Bytes -> Bytes)
    requires AllHonest(calls, SplitSize)
    ensures var s := SendSpec(path, uploadid, calls, partseq, answer, md5);
      forall k :: 0 <= k < |s.sent| ==> 0 < |s.sent[k].data| <= SplitSize
  {
    SendOrder(path, uploadid, calls, partseq, answer, md5);
  }

  /** When the server accepts every part, a reader that delivers positive counts to the end
      has all of its calls sent and the loop reaches `create`. */
  lemma {:induction false} SendAll(path: string, uploadid: string, calls: seq<ReadResult>, partseq: nat,
                                   answer: Part -> Result<UpResp, string>, md5: Bytes -> Bytes)
    requires forall k :: 0 <= k < |calls| ==> calls[k].n > 0
    requires forall p: Part :: PartCheck(p.partseq, answer(p)).None?
    ensures var s := SendSpec(path, uploadid, calls, partseq, answer, md5);
      s.finished && s.err.None? && |s.sent| == |calls|
    decreases |calls|
  {
    if calls != [] {
      var part := Part(path, uploadid, partseq, calls[0].data);
      assert PartCheck(part.partseq, answer(part)).None?;
      SendSpecStep(path, uploadid, calls, partseq, answer, md5);
      SendAll(path, uploadid, calls[1..], partseq + 1, answer, md5);
    }
  }

  /* ---------------------------------------------------------------------------------- */
  /* The file being uploaded                                                             */

  class BDFile {
    var BlockMD5List: seq<string>
    var BlockListMd5: string
    /** How many of the reader's answers earlier calls consumed: a `bytes.Reader` or an
        `*os.File` carries on from there, it does not start over. */
    var readPos: nat
    const RemotePath: string
    const Size: int
    const LocalCtime: int
    /** The successive `Read` calls the file's reader answers into a 4 MiB buffer. */
    const Reader: seq<ReadResult>

    /** `NewBytes`: the file is `bs`; a creation time of 0 means now. */
    constructor NewBytes(bs: Bytes, remotePath: string, createdTime: int, now: int)
      ensures RemotePath == remotePath && Size == |bs|
      ensures LocalCtime == (if createdTime == 0 then now else createdTime)
      ensures Reader == BytesReader(bs, SplitSize) && AllHonest(Reader, SplitSize)
      ensures BlockMD5List == [] && BlockListMd5 == "" && readPos == 0
    {
      BytesReaderDelivers(bs, SplitSize);
      RemotePath := remotePath;
      LocalCtime := if createdTime == 0 then now else createdTime;
      Size := |bs|;
      Reader := BytesReader(bs, SplitSize);
      BlockMD5List := [];
      BlockListMd5 := "";
      readPos := 0;
    }

    /** `precreate`: records the block list tag, then judges the server's answer. */
    method Precreate(answer: Result<PreResp, string>) returns (form: PreForm, r: Result<PreResp, Error>)
      modifies this`BlockListMd5
      ensures BlockListMd5 == BlockListTag(Size)
      ensures form == PreForm("1", RemotePath, BlockListTag(Size), FormatInt(LocalCtime))
      ensures r == PrecreateCheck(answer)
    {
      if Size <= SplitSize {
        BlockListMd5 := TagOneSeq;
      } else {
        BlockListMd5 := TagMoreSeq;
      }
      form := PreForm("1", RemotePath, BlockListMd5, FormatInt(LocalCtime));
      r := PrecreateCheck(answer);
    }

    /** The `create` form: the digests as a JSON array, in order, or `null` while no digest
        was recorded; and the file size. */
    function CreateFormFor(uploadid: string): (form: CreateForm)
      reads this`BlockMD5List
      ensures form.blockList == "null" <==> BlockMD5List == []
      ensures BlockMD5List != [] ==> form.blockList == JsonStrings(BlockMD5List)
      ensures form.size == FormatInt(Size)
      ensures form.path == RemotePath && form.uploadid == uploadid
    {
      CreateForm("0", "1", RemotePath, uploadid, MarshalDigests(BlockMD5List), FormatInt(Size))
    }

    /** The part loop of `UploadFile`: reads into the 4 MiB buffer, sends each chunk as the
        next part and records its digest once the part is accepted. The reads go on from
        where earlier calls left the reader, while the part numbers start again at 0. */
    method SendParts(uploadid: string, answer: Part -> Result<UpResp, string>, md5: Bytes -> Bytes)
      returns (err: Option<Error>, sent: seq<Part>, finished: bool)
      requires AllHonest(Reader, SplitSize) && readPos <= |Reader|
      modifies this`BlockMD5List, this`readPos
      ensures var s := SendSpec(RemotePath, uploadid, Reader[old(readPos)..], 0, answer, md5);
        && err == s.err && sent == s.sent && finished == s.finished
        && BlockMD5List == old(BlockMD5List) + s.blocks
        && readPos == old(readPos) + ReadsTaken(s, |Reader| - old(readPos)) <= |Reader|
    {
      var calls := Reader[readPos..];
      assert AllHonest(calls, SplitSize) by {
        forall i | 0 <= i < |calls| ensures Honest(calls[i], SplitSize) {
          assert calls[i] == Reader[readPos + i];
        }
      }
      var taken;
      err, sent, finished, taken := PartLoop(uploadid, calls, answer, md5);
      readPos := readPos + taken;
    }

    /** The loop itself, over the answers the reader has not given yet; `taken` counts the
        answers it consumes. */
    method PartLoop(uploadid: string, calls: seq<ReadResult>, answer: Part -> Result<UpResp, string>,
                    md5: Bytes -> Bytes)
      returns (err: Option<Error>, sent: seq<Part>, finished: bool, taken: nat)
      requires AllHonest(calls, SplitSize)
      modifies this`BlockMD5List
      ensures var s := SendSpec(RemotePath, uploadid, calls, 0, answer, md5);
        && err == s.err && sent == s.sent && finished == s.finished
        && BlockMD5List == old(BlockMD5List) + s.blocks
        && taken == ReadsTaken(s, |calls|) <= |calls|
    {
      var bs := new Byte[SplitSize];
      var partseq := 0;
      sent := [];
      ghost var blocks0 := BlockMD5List;
      ghost var done: seq<string> := [];
      ghost var whole := SendSpec(RemotePath, uploadid, calls, 0, answer, md5);
      while true
        invariant partseq <= |calls| && |sent| == partseq
        invariant BlockMD5List == blocks0 + done
        invariant whole == SendFrom(RemotePath, uploadid, calls[partseq..], partseq, answer, md5,
                                    Sending(None, sent, done, false))
        decreases |calls| - partseq
      {
        var r := ReadAt(calls, partseq);
        if r.n > 0 {
          FillFront(bs, r.data);
        }
        if r.n <= 0 {
          SendStopTaken(RemotePath, uploadid, calls, partseq, answer, md5, Sending(None, sent, done, false));
          taken := if partseq < |calls| then partseq + 1 else partseq;
          if r.n < 0 {
            return ReadError(r.err), sent, false, taken;
          }
          break;
        }
        assert calls[partseq..][1..] == calls[partseq + 1..];
        assert Honest(calls[partseq], SplitSize);
        var chunk := bs[0..r.n];
        var part := Part(RemotePath, uploadid, partseq, chunk);
        sent := sent + [part];
        var e := PartCheck(partseq, answer(part));
        if e.Some? {
          SendRejectTaken(RemotePath, uploadid, calls, partseq, answer, md5, Sending(None, sent[..partseq], done, false));
          return e, sent, false, partseq + 1;
        }
        var digest := EncodeLower(md5(chunk));
        BlockMD5List := BlockMD5List + [digest];
        done := done + [digest];
        partseq := partseq + 1;
      }
      err, finished := None, true;
    }

    /** `UploadFile`. Besides its error it yields the `superfile` requests it made and the
        `create` form, if it got that far. */
    method UploadFile(pre: Result<PreResp, string>, answer: Part -> Result<UpResp, string>,
                      created: Result<CreateResp, string>, md5: Bytes -> Bytes)
      returns (err: Option<Error>, sent: seq<Part>, create: Option<CreateForm>)
      requires AllHonest(Reader, SplitSize) && readPos <= |Reader|
      modifies this`BlockMD5List, this`BlockListMd5, this`readPos
      ensures BlockListMd5 == BlockListTag(Size) && readPos <= |Reader|
      ensures PrecreateCheck(pre).Err? ==>
                err == Some(PrecreateCheck(pre).error) && sent == [] && create.None? && BlockMD5List == old(BlockMD5List)
                && readPos == old(readPos)
      ensures PrecreateCheck(pre).Ok? && PrecreateCheck(pre).value.returnType in {2, 3} ==>
                err.None? && sent == [] && create.None? && BlockMD5List == old(BlockMD5List)
                && readPos == old(readPos)
      ensures PrecreateCheck(pre).Ok? && PrecreateCheck(pre).value.returnType !in {1, 2, 3} ==>
                err == Some(UnknownReturnType(pre.value.returnType)) && sent == [] && create.None?
                && BlockMD5List == old(BlockMD5List) && readPos == old(readPos)
      ensures PrecreateCheck(pre).Ok? && PrecreateCheck(pre).value.returnType == 1 ==>
                var s := SendSpec(RemotePath, pre.value.uploadid, Reader[old(readPos)..], 0, answer, md5);
                && sent == s.sent
                && BlockMD5List == old(BlockMD5List) + s.blocks
                && readPos == old(readPos) + ReadsTaken(s, |Reader| - old(readPos))
                && (s.finished ==> create == Some(CreateFormFor(pre.value.uploadid)) && err == CreateCheck(created))
                && (!s.finished ==> create.None? && err == s.err)
    {
      var form, resp := Precreate(pre);
      if resp.Err? {
        return Some(resp.error), [], None;
      }
      if resp.value.returnType == 2 || resp.value.returnType == 3 {
        return None, [], None;
      }
      if resp.value.returnType != 1 {
        return Some(UnknownReturnType(resp.value.returnType)), [], None;
      }
      var finished;
      err, sent, finished := SendParts(resp.value.uploadid, answer, md5);
      if !finished {
        return err, sent, None;
      }
      create := Some(CreateFormFor(resp.value.uploadid));
      err := CreateCheck(created);
    }
  }

  /** A file made by `NewBytes` announces the one-entry block list exactly when its reader
      answers at most one part. */
  lemma NewBytesTag(bs: Bytes)
    ensures BlockListTag(|bs|) == TagOneSeq <==> |BytesReader(bs, SplitSize)| <= 1
  {
    BlockListTagChoice(|bs|);
    BytesReaderSingle(bs, SplitSize);
  }

  /** For a file made by `NewBytes`, when the server accepts every part, the parts carry
      exactly the file's bytes, in order and none over 4 MiB, and the upload goes on to
      `create`. */
  lemma NewBytesUpload(bs: Bytes, path: string, uploadid: string,
                       answer: Part -> Result<UpResp, string>, md5: Bytes -> Bytes)
    requires forall p: Part :: PartCheck(p.partseq, answer(p)).None?
    ensures var s := SendSpec(path, uploadid, BytesReader(bs, SplitSize), 0, answer, md5);
      && s.finished && s.err.None?
      && PartsData(s.sent) == bs
      && |s.blocks| == |s.sent|
      && (forall k :: 0 <= k < |s.sent| ==> 0 < |s.sent[k].data| <= SplitSize && s.sent[k].partseq == k)
  {
    var calls := BytesReader(bs, SplitSize);
    BytesReaderDelivers(bs, SplitSize);
    SendAll(path, uploadid, calls, 0, answer, md5);
    SendOrder(path, uploadid, calls, 0, answer, md5);
    SendPayload(path, uploadid, calls, 0, answer, md5);
    PartsBounded(path, uploadid, calls, 0, answer, md5);
    assert calls[..|calls|] == calls;
  }

  /** For a file made by `NewBytes` whose parts the server all accepts, `create` sends the
      block list `null` exactly when the file is empty: no part was read, so no digest was
      appended to the nil list. */
  lemma NewBytesCreateNull(bs: Bytes, path: string, uploadid: string,
                           answer: Part -> Result<UpResp, string>, md5: Bytes -> Bytes)
    requires forall p: Part :: PartCheck(p.partseq, answer(p)).None?
    ensures var s := SendSpec(path, uploadid, BytesReader(bs, SplitSize), 0, answer, md5);
      s.finished && (MarshalDigests(s.blocks) == "null" <==> bs == [])
  {
    var s := SendSpec(path, uploadid, BytesReader(bs, SplitSize), 0, answer, md5);
    NewBytesUpload(bs, path, uploadid, answer, md5);
    if s.sent != [] {
      assert 0 < |s.sent[0].data|;
      assert PartsData(s.sent) == s.sent[0].data + PartsData(s.sent[1..]);
    }
  }

  /** After a rejected part the reader has moved past that part's read: a second
      `UploadFile` on the same file starts with the answer after it, so the rejected chunk
      is never sent again. */
  lemma RejectedPartSkipped(path: string, uploadid: string, calls: seq<ReadResult>,
                            answer: Part -> Result<UpResp, string>, md5: Bytes -> Bytes)
    ensures var s := SendSpec(path, uploadid, calls, 0, answer, md5);
      s.err.Some? && s.err.value.PartFailed? ==>
        ReadsTaken(s, |calls|) == s.err.value.partseq + 1 <= |calls|
        && s.sent[|s.sent| - 1].data == calls[s.err.value.partseq].data
  {
    SendOrder(path, uploadid, calls, 0, answer, md5);
  }

  /** Once a file made by `NewBytes` was uploaded with every part accepted, its reader is at
      end of file: a second `UploadFile` sends no part and goes straight to `create` with
      the digests it already holds. */
  lemma NewBytesRetryCreates(bs: Bytes, path: string, uploadid: string, uploadid2: string,
                             answer: Part -> Result<UpResp, string>, md5: Bytes -> Bytes)
    requires forall p: Part :: PartCheck(p.partseq, answer(p)).None?
    ensures var calls := BytesReader(bs, SplitSize);
      var s := SendSpec(path, uploadid, calls, 0, answer, md5);
      ReadsTaken(s, |calls|) == |calls|
      && SendSpec(path, uploadid2, calls[ReadsTaken(s, |calls|)..], 0, answer, md5) == Sending(None, [], [], true)
  {
    var calls := BytesReader(bs, SplitSize);
    BytesReaderDelivers(bs, SplitSize);
    SendAll(path, uploadid, calls, 0, answer, md5);
    assert calls[|calls|..] == [];
  }
}
