/** The Telegram push bot of package dotgpush: a plain Markdown message sent once, and a
    media group whose multipart body is built from a copy of the caller's album, so that
    the resend after a rate limit uploads the same files again. */
module DoTgPush {
  import opened Wrappers
  import opened Strs
  import opened Streams
  import opened TgApi

  /* ---------------------------------------------------------------------------------- */
  /* SendMessage                                                                          */

  const ParseMk2 := "MarkdownV2"

  /** The form `SendMessage` posts. */
  function MessageForm(chatID: string, text: string): (form: map<string, string>)
    ensures form.Keys == {"chat_id", "text", "parse_mode"}
    ensures form["chat_id"] == chatID && form["text"] == text && form["parse_mode"] == ParseMk2
  {
    map["chat_id" := chatID, "text" := text, "parse_mode" := ParseMk2]
  }

  /** `SendMessage`: one POST and no resend; whatever message decodes is returned, a
      rate limit or a refusal included. */
  function SendMessage(resp: Response): (r: Result<Message, Error>)
    ensures r.Ok? <==> resp.Decoded?
    ensures r.Ok? ==> r.value == resp.msg
    ensures resp.Undecodable? ==> r == Err(DecodeFailed)
    ensures resp.PostFailed? || resp.Unreadable? ==> r == Err(RequestFailed)
  {
    match resp
    case PostFailed => Err(RequestFailed)
    case Unreadable => Err(RequestFailed)
    case Undecodable => Err(DecodeFailed)
    case Decoded(msg) => Ok(msg)
  }

  /* ---------------------------------------------------------------------------------- */
  /* SendMediaGroup                                                                       */

  /** The dynamic `Media` field: bytes to upload, or a string (a URL, a file id or an
      "attach://" reference). */
  datatype MediaValue = Raw(data: Bytes) | Value(s: string)

  /** An album entry: type, media, caption and parse mode. */
  datatype Media = Media(kind: string, media: MediaValue, caption: string, parseMode: string)

  /** A form value: a plain string, or the JSON of an album. */
  datatype FormValue = Text(s: string) | Json(album: seq<Media>)

  function AttachRef(i: nat): string { "attach://" + Itoa(i) }

  /** The entry `SendMediaGroup` builds for album[i]. */
  function Entry(m: Media, i: nat): Media
  {
    Media(m.kind,
          if m.media.Raw? then Value(AttachRef(i)) else m.media,
          m.caption,
          if m.parseMode != "" then m.parseMode else ParseMk2)
  }

  function Entries(album: seq<Media>): (entries: seq<Media>)
    ensures |entries| == |album|
    ensures forall i :: 0 <= i < |album| ==> entries[i] == Entry(album[i], i)
  {
    seq(|album|, i requires 0 <= i < |album| => Entry(album[i], i))
  }

  /** The files of the first n entries: the bytes of entry i under the name "i". */
  function FilesUpTo(album: seq<Media>, n: nat): map<string, Bytes>
    requires n <= |album|
  {
    if n == 0 then map[]
    else
      var files := FilesUpTo(album, n - 1);
      if album[n - 1].media.Raw? then files[Itoa(n - 1) := album[n - 1].media.data] else files
  }

  function Files(album: seq<Media>): map<string, Bytes>
  {
    FilesUpTo(album, |album|)
  }

  /** The loop of `SendMediaGroup`: it copies each entry of `album` into `newAlbum` with
      the parse mode defaulted, moves bytes into `filesList` under the entry's index with an
      "attach://" reference in their place, and fills the form with the chat and the JSON
      of `newAlbum`. */
  method BuildAlbum(chatID: string, album: seq<Media>)
    returns (newAlbum: seq<Media>, filesList: map<string, Bytes>, form: map<string, FormValue>)
    ensures newAlbum == Entries(album)
    ensures filesList == Files(album)
    ensures form == map["chat_id" := Text(chatID), "media" := Json(newAlbum)]
  {
    newAlbum := [];
    form := map[];
    form := form["chat_id" := Text(chatID)];
    filesList := map[];
    var i := 0;
    while i < |album|
      invariant i <= |album|
      invariant |newAlbum| == i
      invariant forall k :: 0 <= k < i ==> newAlbum[k] == Entry(album[k], k)
      invariant filesList == FilesUpTo(album, i)
    {
      newAlbum, filesList := AddEntry(album[i], i, newAlbum, filesList);
      i := i + 1;
    }
    form := form["media" := Json(newAlbum)];
  }

  /** The loop body for entry i. */
  method AddEntry(m: Media, i: nat, newAlbum: seq<Media>, filesList: map<string, Bytes>)
    returns (album': seq<Media>, files': map<string, Bytes>)
    ensures album' == newAlbum + [Entry(m, i)]
    ensures files' == if m.media.Raw? then filesList[Itoa(i) := m.media.data] else filesList
  {
    var parseMode := ParseMk2;
    if m.parseMode != "" {
      parseMode := m.parseMode;
    }
    var n := Media(m.kind, m.media, m.caption, parseMode);
    files' := filesList;
    if n.media.Raw? {
      var bs := n.media.data;
      n := n.(media := Value(AttachRef(i)));
      files' := files'[Itoa(i) := bs];
    }
    album' := newAlbum + [n];
  }

  /** The entries keep type, caption and order; the parse mode is "MarkdownV2" exactly
      where none was given; no entry holds bytes, and every other media value is kept. */
  lemma EntriesKeep(album: seq<Media>, i: nat)
    requires i < |album|
    ensures Entries(album)[i].kind == album[i].kind && Entries(album)[i].caption == album[i].caption
    ensures album[i].parseMode == "" ==> Entries(album)[i].parseMode == ParseMk2
    ensures album[i].parseMode != "" ==> Entries(album)[i].parseMode == album[i].parseMode
    ensures !Entries(album)[i].media.Raw?
    ensures !album[i].media.Raw? ==> Entries(album)[i].media == album[i].media
  {
  }

  /** The files of the first n entries hold the bytes of each of them under its index. */
  lemma {:induction false} FilesUpToHas(album: seq<Media>, n: nat)
    requires n <= |album|
    ensures forall i :: 0 <= i < n && album[i].media.Raw? ==>
      Itoa(i) in FilesUpTo(album, n) && FilesUpTo(album, n)[Itoa(i)] == album[i].media.data
    decreases n
  {
    if n > 0 {
      FilesUpToHas(album, n - 1);
      forall i | 0 <= i < n - 1 && album[i].media.Raw?
        ensures Itoa(i) in FilesUpTo(album, n) && FilesUpTo(album, n)[Itoa(i)] == album[i].media.data
      {
        ItoaInjective(i, n - 1);
      }
    }
  }

  /** The files of the first n entries come from entries that held bytes, and from no
      other. */
  lemma {:induction false} FilesUpToOnly(album: seq<Media>, n: nat)
    requires n <= |album|
    ensures forall key :: key in FilesUpTo(album, n) ==>
      exists i :: 0 <= i < n && key == Itoa(i) && album[i].media.Raw?
    decreases n
  {
    if n > 0 {
      FilesUpToOnly(album, n - 1);
    }
  }

  /** Every "attach://i" reference in the JSON names a file of the body holding the bytes
      album[i] held, and the body holds no other file. */
  lemma AttachmentsResolve(album: seq<Media>)
    ensures forall i :: 0 <= i < |album| && album[i].media.Raw? ==>
      && Entries(album)[i].media == Value(AttachRef(i))
      && Itoa(i) in Files(album) && Files(album)[Itoa(i)] == album[i].media.data
    ensures forall key :: key in Files(album) ==>
      exists i :: 0 <= i < |album| && key == Itoa(i) && album[i].media.Raw?
  {
    FilesUpToHas(album, |album|);
    FilesUpToOnly(album, |album|);
  }

  /** `SendMediaGroup`'s verdict on one POST: transport and decode errors fail; error code
      429 asks for a resend after the announced seconds plus one, or fails when the seconds
      cannot be read; any other message is returned, whether ok or not. */
  function Classify(resp: Response): (o: Outcome)
    ensures o.Sent? <==> resp.Decoded? && resp.msg.errorCode != TooManyRequests
    ensures o.Sent? ==> o.msg == resp.msg
    ensures o.Resend? <==>
      resp.Decoded? && resp.msg.errorCode == TooManyRequests && RetryAfter(resp.msg.description).Some?
    ensures o.Resend? ==> o.wait == RetryAfter(resp.msg.description).value + 1
    ensures o.Failed? && o.err.BadWait? ==>
      resp.Decoded? && resp.msg.errorCode == TooManyRequests && o.err.text == WaitText(resp.msg.description)
  {
    match resp
    case PostFailed => Failed(RequestFailed)
    case Unreadable => Failed(RequestFailed)
    case Undecodable => Failed(DecodeFailed)
    case Decoded(msg) =>
      if msg.errorCode == TooManyRequests then
        match RetryAfter(msg.description)
        case None => Failed(BadWait(WaitText(msg.description)))
        case Some(sec) => Resend(sec + 1)
      else Sent(msg)
  }

  function Outcomes(responses: seq<Response>): (os: seq<Outcome>)
    ensures |os| == |responses|
    ensures forall k :: 0 <= k < |responses| ==> os[k] == Classify(responses[k])
  {
    seq(|responses|, k requires 0 <= k < |responses| => Classify(responses[k]))
  }

  /** The body of one attempt: the form and the files. */
  datatype Body = Body(form: map<string, FormValue>, files: map<string, Bytes>)

  function AlbumBody(chatID: string, album: seq<Media>): Body
  {
    Body(map["chat_id" := Text(chatID), "media" := Json(Entries(album))], Files(album))
  }

  /** The bodies of the attempts `SendMediaGroup` makes: the resend calls it again with the
      same, untouched album. */
  function Posted(chatID: string, album: seq<Media>, responses: seq<Response>): (bodies: seq<Body>)
    ensures |bodies| == Deliver(Outcomes(responses)).attempts
  {
    seq(Deliver(Outcomes(responses)).attempts, _ => AlbumBody(chatID, album))
  }

  /** Every attempt, resends included, uploads the bytes of every media that had them. */
  lemma ResendKeepsFiles(chatID: string, album: seq<Media>, responses: seq<Response>, k: nat, i: nat)
    requires k < Deliver(Outcomes(responses)).attempts
    requires i < |album| && album[i].media.Raw?
    ensures Itoa(i) in Posted(chatID, album, responses)[k].files
    ensures Posted(chatID, album, responses)[k].files[Itoa(i)] == album[i].media.data
    ensures Posted(chatID, album, responses)[k].form["media"] == Json(Entries(album))
  {
    AttachmentsResolve(album);
  }

  /** A rate-limit answer ending in " <n>" makes the bot wait n + 1 seconds and resend. */
  lemma ClassifyRateLimit(ok: bool, prefix: string, n: int)
    requires Int64Min <= n <= Int64Max
    ensures Classify(Decoded(Message(ok, TooManyRequests, prefix + " " + FormatInt(n)))) == Resend(n + 1)
  {
    RetryAfterReadsBack(prefix, n);
  }
}
