# utils-go core, modelled in Dafny

This project models the sequential logic of the Go utility library donething/utils-go and
proves what that logic promises. One Dafny module stands for each Go package:

- `DoLive` (live.dfy): the segmented recorder of a live stream. `New` splits the output
  path. `Capture` reads the body through a 1 MiB buffer, rotates to a new segment when
  the size limit is passed, and appends each chunk to the current file. On the second
  segment, `createFileStream` renames `name.fmt` to `name_01.fmt`. `Live` is a class over
  a modelled disk, and each method is proved against a specification function
  (`CaptureSpec`, `LoopSpec`, `ChunkSpec`, `CreateSpec`). The lemmas prove the capture
  invariant: the files are named by the rule, are distinct, and hold exactly the bytes
  written, in read order, with `Total` counting them.
- `DoBdPan` (upload.dfy): the three-step upload to Baidu's cloud storage, as the `BDFile`
  class. It covers the block-list tag, the 4 MiB part loop with its digest list, and the
  verdicts on the three answers.
- `DoVideo` (video.dfy): the bookkeeping of `Cut`, `Concat`, `Convt` and `GetResolution`
  around FFmpeg.
- `DoTypes` (arrays.dfy): `FindIndex` and `DelItem` on a slice, which is a backing array
  plus a length.
- `DoHttp` (dohttp.dfy): the 2xx test and `IsPublicIP`. The private blocks are those of
  section 3 of RFC 1918.
- `DFiles` (dfile.dfy) and `DoFile` (dofile.dfy): the packages `file` and `dofile`. They
  cover path slicing, directory listing with filters, reads and writes through `os`,
  `CopyFile`'s guards, and the magic-number integrity check. Hex is the base16 of section
  8 of RFC 4648 (hex.dfy).
- `DoText` (text.dfy): the byte-order-mark test, the unit choice of `BytesHumanReadable`,
  and `ResolveFanhao`.
- `Markdown` (markdown.dfy): the escape of the "MarkdownV2 style" section of the Telegram
  Bot API.
- `TgApi` (tgapi.dfy): the 429 rate-limit answer and the resend it causes.
- `DoTg` (tg.dfy) and `DoTgPush` (tgpush.dfy): the two Telegram senders. The model covers
  how a media group is turned into a multipart body, and the preparation of a video in
  `SendVideo`.
- `QyMsg`, `DoWx` and `DoWxPush` (qymsg.dfy, wx.dfy, wxpush.dfy): the WeChat Work message
  builders and the access-token cache of the two push clients.
- `WxEntity` (pushtpl.dfy): the template message of package
  `dowxpush/sandbox/entity`.

Shared helpers:

- `Wrappers`: `Option` and `Result`.
- `Strs`: string search, trimming, and decimal conversion as `strconv` does it.
- `PathUtil`: `path/filepath` with the Unix separator.
- `Streams`: the `io.Reader` contract, one `ReadResult` per call.
- `Fs`: the file system, as a map from path to node plus the paths whose operations fail.

The network, the clock, MD5, JSON and FFmpeg enter as parameters. Each decoded server
answer, each reading of the clock, and each outcome of an external program is an input.
Bytes are integers in 0..255.

## Model

| member | source | states |
|---|---|---|
| DoTypes.FirstMatch | dotypes/arrays.go:4-12 | the index of the first element satisfying `equal`, with no match before it; -1 exactly when no element matches |
| DoTypes.FindIndex | dotypes/arrays.go:4-12 | the loop returns FirstMatch of the slice |
| DoTypes.Without | dotypes/arrays.go:23 | dropping one element keeps the others in order, and the multiset loses exactly that element |
| DoTypes.DelItem | dotypes/arrays.go:17-24 | true iff some element matches; without a match the slice and its backing array are unchanged; with one the length drops by one, and the backing array holds the slice without its first match followed by the old last element |
| DoTypes.ShiftedDown | dotypes/arrays.go:23 | the in-place shift of `append(data[:i], data[i+1:]...)` leaves Without(slice, i) followed by the old tail |
| DoTypes.DelItemExample | dotypes/arrays_test.go:75-78 | deleting 2 from [1, 2, 3] leaves [1, 3] |
| DoHttp.To4 | dohttp/tools.go:14 | the IPv4 form has four bytes, is the address itself for a 4-byte address, and is absent for other lengths |
| DoHttp.IsPublicIPBlocks | dohttp/tools.go:10-27 | an address is public exactly when it has an IPv4 form outside 127/8, 224.0.0/24, 169.254/16, 10/8, 172.16/12 and 192.168/16; no IPv6-only address is public |
| DoHttp.BlocksAsOctets | dohttp/tools.go:16-21 | each octet comparison is exactly membership in its CIDR block |
| DoHttp.IsPublicIPRepresentation | dohttp/tools.go:14 | an IPv4 address and its `::ffff:a.b.c.d` form are classified alike |
| DFiles.Get | file/file.go:40-47 | a DFile exactly when `os.Stat` finds the path, holding the path and its FileInfo; a missing path gives the not-exist error |
| DFiles.StatInfo | file/file.go:45-46 | the FileInfo is present exactly when the path is found, naming its last element and whether it is a directory |
| DFiles.BaseName | file/file.go:83-89 | the name up to its last '.', or the whole name without one; what is dropped starts at a '.' and holds no other |
| DFiles.BaseNameDotFile | file/file.go:83-89 | a name whose only '.' comes first has an empty base name |
| DFiles.ParentPath | file/file.go:99-110 | the path up to its last separator when that is not the first character, otherwise the path itself; the separator alone for an empty path |
| DFiles.ParentPathExamples | file/file.go:98-108 | "/home/user" has the parent "/home", and "/home" is kept |
| DFiles.Parent | file/file.go:93-96 | the DFile of the parent path when that can be looked up, nil otherwise |
| DFiles.Read | file/file.go:50-60 | a directory snapshot is refused with ErrIsDir; otherwise the file's current contents, or the open error |
| DFiles.WriteAsWrittenNeverWrites | file/file.go:63-80 | with no access mode in its flags the write always fails with nothing written, and a non-append call leaves the file empty |
| DFiles.WriteThenRead | file/file.go:63-80 | the corrected write succeeds exactly when the snapshot is no directory and the path opens and takes writes; reading back gives the data, or the old contents followed by the data when appending; no other path changes |
| DFiles.Write | file/file.go:63-80 | the corrected write (opened write-only; the code as written is DFiles.WriteAsWrittenNeverWrites): the disk after the call and the result are those of WriteOutcome |
| DFiles.Md5 | file/file.go:175-193 | fails exactly when reading fails, with the same error; the hex text decodes back to the digest of the contents |
| DFiles.KeptMembers | file/file.go:139-156 | an entry is listed exactly when it is in the directory and the filter selects it |
| DFiles.KeptAll | file/file.go:151-152 | ALL lists every entry in order |
| DFiles.KeptPartition | file/file.go:143-150 | FILE and DIR split the entries between them |
| DFiles.ListError | file/file.go:123-155 | List fails with ErrIsFile for a non-directory, with the ReadDir error, or with the filter error when an unknown filter meets a first entry; an empty directory accepts any filter |
| DFiles.List | file/file.go:123-158 | fails exactly as ListError says; otherwise the selected entries in directory order, each with its cleaned path and a fresh Stat |
| DFiles.ListPaths | file/file.go:161-172 | fails exactly as List does; otherwise the cleaned path of each selected entry, in order, and each of them is its own clean form |
| PathUtil.CleanIdempotent | file/file.go:140 | `filepath.Clean`, which List applies to every path it builds, is idempotent: a cleaned path is its own clean form |
| DFiles.ChildPathClean | file/file.go:140 | the path built for an entry is already clean: cleaning it again changes nothing |
| DFiles.PathsOf | file/file.go:167-170 | the path of each DFile, in the same order |
| Fs.Disk.Rename | file/file.go:113-115 | os.Rename of a regular file: the error of RenameError, and on success `to` holds what `from` held and `from` is gone; on error nothing changes |
| DoFile.PathExists | dofile/file.go:95-107 | true exactly when `os.Stat` finds the path; an error exactly when Stat fails for a reason other than absence; never both |
| DoFile.IsDir | dofile/file.go:111-117 | true exactly when the path is found and is a directory; an error exactly when Stat fails |
| DoFile.GetMagicNum | dofile/file.go:216-227 | a table entry exactly for .jpg, .jpeg, .png and .gif in any case; any other suffix is the unknown-format error naming it |
| DoFile.MagicTexts | dofile/file.go:219-223 | the table's hex strings spell the JPEG, PNG and GIF signature bytes |
| DoFile.SuffixAsWritten | dofile/file.go:165 | slicing from the last '.' fails exactly when the path has no '.' |
| DoFile.SuffixAsWrittenPanics | dofile/file.go:165 | "/tmp/photo" makes the integrity test panic instead of reporting an unknown format |
| DoFile.Suffix | dofile/file.go:165 | with a '.' the suffix starts at the last '.' and ends the path; without one it is empty and the table rejects it |
| DoFile.HeadOf | dofile/file.go:194-195 | one Read into an n-byte buffer leaves n bytes, the file's first n when it is that long |
| DoFile.HeadMatch | dofile/file.go:194-198 | a head ending in a non-zero byte matches only a file at least that long that starts with it |
| DoFile.ReadHeadTail | dofile/file.go:185-212 | succeeds exactly for a regular file at least nTail bytes long, giving the head buffer and the last nTail bytes |
| DoFile.HexEqual | dofile/file.go:173-178 | upper-casing the lower-case hex of some bytes equals the upper-case hex of a signature exactly when the bytes are the signature |
| DoFile.JudgeSignature | dofile/file.go:172-181 | the hex comparison passes exactly when the file starts with the head signature and, when a tail is required, ends with the tail signature |
| DoFile.JudgeLooksLike | dofile/file.go:167-181 | for every known suffix the verdict is exactly "is a regular file with that format's signatures" |
| DoFile.CheckIntegrity | dofile/file.go:146-182 | the corrected check (a path without '.' is an unknown format; the code as written is DoFile.SuffixAsWrittenPanics): no error exactly when the path exists, is no directory and has a known suffix; absent path and directory give their own errors; without an error the verdict is the signature match |
| DoFile.CopyGuard | dofile/file.go:58-75 | CopyFile passes its guards exactly when the destination is absent or override is set and the source is an existing regular file; an existing destination without override gives the exists error |
| DoFile.CopyAsWrittenLosesData | dofile/file.go:83-90 | opened without an access mode, copying a non-empty file to a new path fails and leaves an empty destination |
| DoFile.CopyDelivers | dofile/file.go:58-91 | the corrected copy between two paths succeeds exactly when the guards pass and the destination opens and takes writes; the destination then holds the source's bytes, the count is their length, and no other path changes |
| DoFile.CopyFile | dofile/file.go:58-91 | the corrected copy (destination opened write-only; the code as written is DoFile.CopyAsWrittenLosesData): the disk after the call and the result are those of CopyOutcome |
| DoText.HasUtf8Bom | dotext/text.go:23-28 | true exactly when the data begins with EF BB BF |
| DoText.BomPrefix | dotext/text.go:23-28 | data starting with the mark is reported whatever follows, and reported data is at least three bytes long |
| DoText.UnitIndex | dotext/text.go:145-149 | the unit index of a size of at least 1024 is the power of 1024 that brackets it |
| DoText.UnitUnique | dotext/text.go:145-149 | the bracket fixes the index |
| DoText.UnitIndexBound | dotext/text.go:150 | a 64-bit size never needs a unit past 'E', so indexing "KMGTPE" is safe |
| DoText.MegabyteExample | dotext/text_test.go:126-127 | 123456789 bytes are shown in MB |
| DoText.BytesHumanReadable | dotext/text.go:140-151 | below 1024 the count followed by " B"; otherwise the divisor is the bracketing power of 1024 and the unit letter is its place in "KMGTPE" |
| DoText.LetterEnd | dotext/text.go:158 | the end of the longest run of ASCII letters from i |
| DoText.DigitEnd | dotext/text.go:158 | the end of the longest run of digits from i |
| DoText.MatchAt | dotext/text.go:158-159 | a match of `([a-zA-Z]+)([-_\s]?)([0-9]+)` at i gives non-empty letters and non-empty digits |
| DoText.Leftmost | dotext/text.go:159 | the leftmost position where a match starts, with no match before it; -1 when there is none |
| DoText.Pad3 | dotext/text.go:162-166 | one or two digits are widened to three with leading zeros; longer runs are kept |
| DoText.Pad3Value | dotext/text.go:162-166 | padding keeps the number's value |
| DoText.ResolveFanhao | dotext/text.go:156-170 | "" exactly when no position starts a match; otherwise the leftmost match's letters, "-", and its padded digits |
| DoText.ResolveFanhaoShape | dotext/text.go:156-170 | a result is letters without '-', one '-', and at least three digits that keep the number's value |
| DoText.MatchExample | dotext/text.go:158-159 | in "see abp_12." the match at "abp" gives the letters "abp" and the digits "12" |
| DoText.NoMatchBefore | dotext/text.go:158-159 | no match starts inside "see " |
| DoText.ResolveFanhaoPads | dotext/text.go:156-170 | "see abp_12." resolves to "abp-012" |
| DoText.NoDigitNoFanhao | dotext/text.go:156-170 | text without a digit resolves to "" |
| Markdown.Escape | dotg/sender.go:309-313 | the escaped text is one character longer for each reserved character |
| Markdown.EscapeConcat | dotg/sender.go:302-306 | escaping works character by character, so an escaped part can be joined with Markdown text |
| Markdown.EscapeHead | dotg/sender.go:309-313 | an escaped text never starts with a reserved character |
| Markdown.UnescapeEscape | dotgpush/sender.go:141-144 | removing the inserted backslashes gives back the text, whatever it holds |
| Markdown.EscapeUnchanged | dotgpush/sender.go:141-144 | a text is left as it is exactly when it holds no reserved character |
| Markdown.EscapeMk | dotg/sender.go:309-313 | the MarkdownV2 escape used by EscapeMk and by ReplaceMk (dotgpush/sender.go:141-144): one backslash per reserved character, and unescaping gives the text back |
| Markdown.LegalMk | dotg/sender.go:318-321 | only '#' gets a backslash, and unescaping gives the text back |
| Markdown.EscapeMkTestText | dotg/sender_test.go:118 | the eight pieces of the test case spell its text |
| Markdown.EscapeMkTestWant | dotg/sender_test.go:119 | the eight escaped pieces spell the answer the test case expects |
| Markdown.EscapeMkTestExample | dotg/sender_test.go:116-120 | the escape of the test text, piece by piece, is exactly the expected answer: one backslash before each of '_', '*', '[', ']', '(', ')', '>', '#' and '!' |
| Markdown.LegalMkAgrees | dotg/sender.go:318-321 | on a text whose only reserved character is '#', LegalMk and EscapeMk agree |
| Hex.DecodeEncodeLower | file/file.go:190-191 | the lower-case hex text of a digest decodes back to the digest |
| Hex.UpperOfLower | dofile/file.go:173-177 | upper-casing lower-case hex gives upper-case hex |
| Hex.EncodeUpperInjective | dofile/file.go:177-178 | two byte strings with the same upper-case hex are equal |
| DoLive.SplitOutputPathAsWrittenLosesName | dolive/live.go:46-50 | as written, New trims every trailing character of the base name that occurs in the extension: "shell.flv" gets the name "she" where "shell" is meant |
| DoLive.SplitOutputPathRoundTrip | dolive/live.go:46-50 | with the intended split, name + "." + format gives the base name back whenever the path has an extension |
| DoLive.SegPathInjective | dolive/live.go:130-137 | the numbered segment paths `name_%02d.fmt` differ for different numbers |
| DoLive.SegPathNotSingle | dolive/live.go:126-137 | no numbered segment path is the single-file path |
| DoLive.NamedDistinct | dolive/live.go:121-150 | files named by the rule (none, the single file, or segments 1..k) are pairwise distinct |
| DoLive.CreateKeeps | dolive/live.go:121-150 | createFileStream keeps the capture invariant and the bytes recorded, adds at most one file, and on the second file renames the first to number 01 |
| DoLive.WriteKeeps | dolive/live.go:110-113 | a write through the current file either fails and changes nothing recorded, or appends the chunk to what the files hold |
| DoLive.ChunkKeeps | dolive/live.go:98-114 | one chunk lands entirely at the end of the recorded bytes and Total grows by its length, or an error is returned |
| DoLive.LoopOutcome | dolive/live.go:86-117 | the loop writes only chunks of positive count; it returns a read error only for a negative count carrying it, and nil at end of stream, at a zero count or at a negative count with nil error |
| DoLive.LoopRecords | dolive/live.go:86-117 | after the loop the files hold their earlier bytes followed by exactly the chunks written, in read order, and Total counts them |
| DoLive.LoopFileCount | dolive/live.go:99-105 | each chunk opens at most one new file |
| DoLive.LoopUnlimitedSingleFile | dolive/live.go:99 | with FLSize 0 the capture never has more than one file |
| DoLive.LoopOverBudget | dolive/live.go:99 | with a limit, k files exist only once more than limit * (k - 1) bytes were written |
| DoLive.CaptureKeeps | dolive/live.go:64-118 | a failed request or a non-2xx status records nothing; otherwise the files hold the chunks written; the current file is always closed at the end |
| DoLive.Live.New | dolive/live.go:46-61 | the new recorder has no file, nothing written, and the directory, name and format of the intended split |
| DoLive.Live.CloseCurFile | dolive/live.go:153-157 | closes the current file if there is one: the open handles lose exactly its id and nothing else changes; a second close is harmless |
| DoLive.Live.CreateFileStream | dolive/live.go:121-150 | the new state and error are those of the createFileStream specification, and the invariant holds; the previous current handle is closed whatever happens, and the open handles differ only by it and by the one new handle, issued by this call |
| DoLive.Live.OpenAfterClose | dolive/live.go:124-149 | once the current file is closed, the state and error of the createFileStream specification; either nothing was opened, or exactly one handle, the next id, which becomes current |
| DoLive.CloseThenOpen | dolive/live.go:122-147 | closing the current handle and then opening at most one fresh handle closes the old one and touches no other handle |
| DoLive.ReplacedIsClosed | dolive/live.go:122-146 | close before reopen: whenever the current handle was replaced, the replaced handle is no longer open |
| DoLive.Live.CaptureChunk | dolive/live.go:98-114 | one delivered chunk: rotation, write and count as the chunk specification says; no handle but the current one changes, and a replaced current handle is closed |
| DoLive.Live.ReadOnce | dolive/live.go:87-114 | one pass of the loop: a read of zero or a negative count ends the scan with its state and error; a delivered chunk is written as the chunk specification says, and then either ends the scan with the chunk's error or leaves the rest of the scan to the next read; no handle but the current one changes |
| DoLive.Live.ReadLoop | dolive/live.go:84-116 | the loop's final state and error are those of the loop specification over the reads; no handle but the current one changes, and if the current handle was replaced the one held at the start is closed |
| DoLive.Live.Capture | dolive/live.go:64-118 | the new state and error are those of the capture specification, and the current file is closed afterwards; after a response, the open handles are those before the call less the one current then: every handle the capture opened is closed again; a failed request touches no handle |
| DoBdPan.TagOneIsJson | dopan/dobdpan/upload.go:25 | the fixed one-part block list is the JSON array holding one fixed digest |
| DoBdPan.BlockListTagChoice | dopan/dobdpan/upload.go:19-26 | the one-entry block list is chosen exactly when the size is at most 4 MiB, the two-entry list exactly when it is larger |
| DoBdPan.PrecreateCheck | dopan/dobdpan/upload.go:217-234 | precreate succeeds exactly when the answer arrived, decoded and has errno 0, and then yields that answer |
| DoBdPan.PartCheck | dopan/dobdpan/upload.go:242-261 | a part is accepted exactly when its answer arrived, decoded and has an empty error message; a rejection names the part number |
| DoBdPan.CreateCheck | dopan/dobdpan/upload.go:282-297 | create succeeds exactly when its answer arrived, decoded and has errno 0 |
| DoBdPan.SendFromFrame | dopan/dobdpan/upload.go:166-191 | the parts and digests already gathered do not influence the rest of the loop; they are only prepended |
| DoBdPan.SendOrder | dopan/dobdpan/upload.go:166-191 | parts go out in read order numbered on from the first part number, each holding exactly its read's bytes; each accepted part's digest is recorded in order and a rejected part ends the loop with no digest |
| DoBdPan.SendPayload | dopan/dobdpan/upload.go:170-182 | the parts sent carry, concatenated, exactly the bytes the reads delivered |
| DoBdPan.PartsBounded | dopan/dobdpan/upload.go:166-182 | against a reader that honours the 4 MiB buffer, no part is empty or larger than 4 MiB |
| DoBdPan.SendAll | dopan/dobdpan/upload.go:168-194 | when every part is accepted and every read is positive, all reads are sent and the loop reaches create |
| DoBdPan.BDFile.NewBytes | dopan/dobdpan/upload.go:89-107 | Size is the byte count, LocalCtime is the given time unless it is 0 (then now), and the reader yields the bytes in 4 MiB reads, none of them consumed yet |
| DoBdPan.BDFile.Precreate | dopan/dobdpan/upload.go:198-235 | sets the block-list tag by size, sends the path, tag and creation time, and judges the answer by its errno |
| DoBdPan.MarshalDigests | dopan/dobdpan/upload.go:266 | `json.Marshal` of the digest list is `null` exactly when no digest was appended (a nil slice), else the JSON array of the digests |
| DoBdPan.BDFile.CreateFormFor | dopan/dobdpan/upload.go:265-280 | the create form carries the block list `null` exactly when no digest was recorded, else the digests as a JSON array in order; and the size, the path and the upload id |
| DoBdPan.BDFile.SendParts | dopan/dobdpan/upload.go:166-191 | the part loop sends and records exactly what the loop specification says over the reader's unconsumed answers, numbering parts from 0, appending its digests to BlockMD5List and moving the read position past every answer it consumed |
| DoBdPan.BDFile.PartLoop | dopan/dobdpan/upload.go:166-191 | over the answers not yet consumed, the loop sends and records what the loop specification says and counts the answers it consumes: one per Read call, none past end of file |
| DoBdPan.BDFile.UploadFile | dopan/dobdpan/upload.go:140-195 | a precreate failure or an unknown return type is an error and return types 2 and 3 succeed, all three without sending; return type 1 runs the part loop from where earlier calls left the reader and then create, whose block list is `null` when no digest was recorded; only the part loop moves the read position |
| DoBdPan.NewBytesTag | dopan/dobdpan/upload.go:198-204 | a file made from bytes announces the one-entry block list exactly when it is read in at most one part |
| DoBdPan.NewBytesCreateNull | dopan/dobdpan/upload.go:89-194 | for a file made from bytes whose parts are all accepted, create sends the block list `null` exactly when the file is empty |
| DoBdPan.RejectedPartSkipped | dopan/dobdpan/upload.go:168-183 | after a rejected part the reader has consumed that part's read, so a second upload on the same file never sends that chunk again |
| DoBdPan.NewBytesRetryCreates | dopan/dobdpan/upload.go:140-195 | after an upload of a file made from bytes with every part accepted, the reader is at end of file: a second upload sends no part and goes straight to create with the digests already held |
| DoBdPan.NewBytesUpload | dopan/dobdpan/upload.go:89-194 | when the server accepts every part, the parts of a file made from bytes carry exactly its bytes, numbered from 0, none over 4 MiB, and the upload goes on to create |
| DoVideo.CutDstDirBlank | dovideo/video.go:30-32 | the target directory is the video's own exactly when the given one holds only white space; otherwise the given one is used |
| DoVideo.SegmentCountIsCeiling | dovideo/video.go:45 | the segment count is the least number of segments of the maximal size that hold the file |
| DoVideo.GoQuotTruncates | dovideo/video.go:53 | Go's integer quotient leaves a remainder smaller than the divisor, with the dividend's sign |
| DoVideo.SegmentNamesDistinct | dovideo/video.go:66-77 | different segment numbers give different `name_%02d.mp4` names |
| DoVideo.Candidates | dovideo/video.go:76-77 | there is one candidate path per expected segment |
| DoVideo.CutPlan | dovideo/video.go:27-72 | a planned cut exists only when the directory was made, the video found, its duration known and FFmpeg succeeded |
| DoVideo.CutPlanSegmentCount | dovideo/video.go:39-45 | a planned cut has as many segments as the size calls for, rounded up |
| DoVideo.CutPlanSegmentTime | dovideo/video.go:47-61 | each segment's time is the duration divided by the segment count, rounded down |
| DoVideo.CutPlanEmptyVideo | dovideo/video.go:45-53 | an empty video gives a segment count of 0 and the integer division by it panics |
| DoVideo.FirstUnkept | dovideo/video.go:76-88 | the number of leading candidates that are regular files of at least 512 KiB, the next one failing that test |
| DoVideo.Collect | dovideo/video.go:74-90 | the scan keeps the longest prefix of kept candidates and removes the first candidate that fails |
| DoVideo.Cut | dovideo/video.go:27-91 | Cut fails as its plan fails, otherwise its result is the scan of the candidates of the plan |
| DoVideo.CollectedPaths | dovideo/video.go:74-90 | Cut returns at most the expected number of paths, each the segment path of its position; the first rejected candidate is gone from the disk |
| DoVideo.Line | dovideo/video.go:120 | each list-file line is non-empty |
| DoVideo.ListTextEmpty | dovideo/video.go:110-126 | the list is empty, so Concat reports ErrNoVideos, exactly when no entry is a non-directory with the input suffix |
| DoVideo.ListTextIsSelectedLines | dovideo/video.go:110-121 | the list holds one line per qualifying entry, in directory order, and nothing else |
| DoVideo.ListFile | dovideo/video.go:110-121 | the loop of Concat builds exactly the list text |
| DoVideo.Concat | dovideo/video.go:102-152 | a listing failure is an error; an empty list is ErrNoVideos before anything is written; otherwise the list is written and FFmpeg run on it |
| DoVideo.ConvtDefaultTarget | dovideo/video.go:160-167 | with a blank target, a path whose extension is ".mp4" in any case is refused; otherwise the target is the path with its extension replaced by ".mp4" |
| DoVideo.ConvtExplicitTarget | dovideo/video.go:160 | a target that is not blank is used as given |
| DoVideo.Convt | dovideo/video.go:157-182 | a refused default target is returned as the error before FFmpeg runs |
| DoVideo.GetResolution | dovideo/video.go:230-238 | the corrected parse (output without 'x' is a height error; the code as written is DoVideo.GetResolutionBareNumber): a failure is a width or height error, and a success needs an 'x' in the trimmed output |
| DoVideo.GetResolutionBareNumber | dovideo/video.go:230-235 | output without 'x' panics as written; corrected, it is a height error |
| DoVideo.GetResolutionReadsBack | dovideo/video.go:230-238 | ffprobe's "WxH" line reads back as the width and height it printed |
| TgApi.WaitText | dotg/sender.go:118 | the wait text is a suffix of the description and holds no space |
| TgApi.RetryAfter | dotg/sender.go:118-119 | a wait read from a description fits in a 64-bit integer |
| TgApi.RetryAfterReadsBack | dotg/sender.go:117-119 | a description ending in " <n>" asks for exactly n seconds, whatever comes before |
| TgApi.Settled | dotg/sender.go:174-183 | an exchange settles as a success exactly when its last attempt delivered |
| TgApi.Deliver | dotg/sender.go:174-183 | every attempt but the last asked for a resend; a settled send takes the verdict of its last attempt; an unsettled one used every attempt, all resends; the seconds slept are those the resends asked for |
| TgApi.DeliverFirstSettled | dotg/sender.go:174-183 | the first attempt not answered with a rate limit settles the send, after exactly that many attempts |
| DoTg.Classify | dotg/sender.go:95-151 | an attempt delivers exactly when the answer decoded, is not a 429 and is ok; a 429 with a readable wait asks for a resend after that wait plus one second; anything else fails |
| DoTg.ClassifyRateLimit | dotg/sender.go:117-135 | a 429 whose description ends in " <n>" makes the sender wait n + 1 seconds and resend |
| DoTg.Outcomes | dotg/sender.go:174-180 | the verdict of each attempt is the classification of its answer |
| DoTg.SendSettles | dotg/sender.go:174-183 | the send settles on the first answer that is not a readable rate limit, and succeeds exactly when that answer is an ok message |
| DoTg.InputMedia.Rewrite | dotg/sender.go:235-260 | a stream becomes "attach://media<i>", a thumbnail stream "attach://thumb<i>", and an empty parse mode "MarkdownV2"; nothing else changes |
| DoTg.Records | dotg/sender.go:196 | the records are read off the media references one for one |
| DoTg.RewrittenAll | dotg/sender.go:217-261 | every media of the group is rewritten with its own index |
| DoTg.UploadsComplete | dotg/sender.go:217-255 | every stream and thumbnail stream of the group is uploaded under the part name its reference points at |
| DoTg.UploadsEmpty | dotg/sender.go:217-255 | a group uploads nothing exactly when none of its media holds a stream |
| DoTg.RewrittenSettled | dotg/sender.go:217-261 | after the rewrite no media holds a stream, and rewriting again changes nothing |
| DoTg.WriteMediaGroup | dotg/sender.go:210-272 | as written, the body is chat_id, the uploads and the rewritten records, and the caller's media are left rewritten in place |
| DoTg.CopyStreams | dotg/sender.go:219-255 | the parts grow by the media's stream and then its thumbnail's stream |
| DoTg.RequestsAsWritten | dotg/sender.go:292-293 | the first attempt sends the request of the caller's records, and each resend that of the records the earlier attempt left behind |
| DoTg.ResendLosesUploads | dotg/sender.go:217-293 | as written, a stream uploaded by the first attempt is absent from the resend, whose media field only refers to it |
| DoTg.BuildMediaGroup | dotg/sender.go:210-272 | the body built from the records without changing the caller's media is the request of those records |
| DoTg.ResendKeepsUploads | dotg/sender.go:217-236 | built afresh, every attempt uploads every stream of the group, given streams that can be read again (buffered or reopened), as the model's stream-as-bytes is |
| DoTg.Mp4PathIsConvtTarget | dotg/sender.go:347-350 | a video that is not MP4 is converted to the target Convt picks by default; an MP4 video is sent as it is |
| DoTg.Mp4PathExt | dotg/sender.go:347-350 | the video sent always has the extension ".mp4" |
| DoTg.PrepareVideo | dotg/sender.go:347-375 | converts a video that is not MP4 and removes the original, each failure stopping the send; then reads the size of the video to send and decides whether to cut it; the result is Ok exactly when the video is MP4 already or was converted and its original removed, and the MP4 path is then found; every error is a conversion, removal or stat failure |
| DoTg.CutReadsRemovedFile | dotg/sender.go:371 | as written, after a conversion the cutter is given the original path, which the conversion step has just removed |
| DoTg.CutReadsConvertedVideo | dotg/sender.go:351-375 | the corrected cutter reads the video whose size was measured: after a conversion that is the converted file with FFmpeg's output, otherwise the original left in place |
| DoTg.Segments | dotg/sender.go:369-375 | a video that need not be cut is sent as the single converted path |
| DoTg.LabelsDistinct | dotg/sender.go:390-393 | with two or more segments, different segments get different "Pnn" names |
| DoTg.Label | dotg/sender.go:386-394 | the media of segment i carries the title as caption only when i is 0 and a "Pnn" name only when there are several |
| DoTg.VideoMedias | dotg/sender.go:377-395 | one media per segment, labelled as above, exactly when every media could be made; otherwise the first failure is the error |
| DoTg.Deletions | dotg/sender.go:397-407 | with several segments their directory is removed, otherwise the thumbnail beside the video; the video itself only when delete is set |
| DoTg.KeepsVideo | dotg/sender.go:397-407 | a video sent whole is kept unless delete is set |
| DoTgPush.MessageForm | dotgpush/sender.go:49-53 | the form holds exactly chat_id, text and parse_mode "MarkdownV2" |
| DoTgPush.SendMessage | dotgpush/sender.go:48-63 | SendMessage has no resend: it returns whatever message decodes, a rate limit included; a failed POST or read is a request error and an undecodable body a decode error |
| DoTgPush.Entries | dotgpush/sender.go:72-100 | the new album has the length of the album and entry i is built from album[i] |
| DoTgPush.BuildAlbum | dotgpush/sender.go:72-104 | the loop builds the entries, the file map of the byte media and the form of chat_id and the entries' JSON, without touching the album |
| DoTgPush.AddEntry | dotgpush/sender.go:80-100 | one step appends the entry for album[i] and, for byte media, files the bytes under "i" |
| DoTgPush.EntriesKeep | dotgpush/sender.go:82-97 | each entry keeps its type and caption; its parse mode is the album's when that is not empty and "MarkdownV2" when it is; byte media become references and other media are kept as they are |
| DoTgPush.FilesUpToHas | dotgpush/sender.go:94-97 | the bytes of every byte media are filed under its index |
| DoTgPush.FilesUpToOnly | dotgpush/sender.go:94-97 | every filed key is the index of a byte media and holds its bytes |
| DoTgPush.AttachmentsResolve | dotgpush/sender.go:94-104 | every "attach://i" reference in the JSON names a file of the body holding the bytes it replaced, and every file is referred to |
| DoTgPush.Classify | dotgpush/sender.go:106-131 | an attempt delivers exactly when the answer decoded and is not a 429, whether ok or not; a 429 with a readable wait asks for a resend after that wait plus one second |
| DoTgPush.ClassifyRateLimit | dotgpush/sender.go:119-128 | a 429 whose description ends in " <n>" makes the bot wait n + 1 seconds and resend |
| DoTgPush.Outcomes | dotgpush/sender.go:106-131 | the verdict of each attempt is the classification of its answer |
| DoTgPush.Posted | dotgpush/sender.go:70-132 | one body is posted per attempt the send makes |
| DoTgPush.ResendKeepsFiles | dotgpush/sender.go:71-128 | every attempt, resends included, uploads the bytes of every byte media and sends the same media JSON, because the album is never modified |
| QyMsg.Recipients | dowx/qiye.go:39-41 | the target is never empty: the given users, or "@all" when none are given |
| QyMsg.Unwrap | dowx/qiye.go:156-188 | what is read back from inside a tag is the text between the opening and closing tag |
| QyMsg.UnwrapWrap | dowx/qiye.go:156-188 | unwrapping a wrapped text gives the text back |
| QyMsg.WrapUnwrap | dowx/qiye.go:156-188 | whatever unwrapping accepts is a wrapped text |
| QyMsg.StampLastNewline | dowx/qiye.go:146 | the last newline of a text stamped with the date ends the separator, when the date has no newline |
| QyMsg.UnstampStamp | dowx/qiye.go:78 | the body and the date can be read back from a stamped text whose date has no newline |
| QyMsg.FirstNewline | dowx/qiye.go:115-116 | the first newline of head + "\n" + rest ends head when head has none |
| DoWx.GenCardGrayText | dowx/qiye.go:155-158 | the text reads back from inside the gray div tag |
| DoWx.GenCardNormalText | dowx/qiye.go:160-163 | the text reads back from inside the normal div tag |
| DoWx.GenCardHighlightText | dowx/qiye.go:165-168 | the text reads back from inside the highlight div tag |
| DoWx.GenMdInfoText | dowx/qiye.go:170-173 | the text reads back from inside the info font tag |
| DoWx.GenMdCommentText | dowx/qiye.go:175-178 | the text reads back from inside the comment font tag |
| DoWx.GenMdWarningText | dowx/qiye.go:180-183 | the text reads back from inside the warning font tag |
| DoWx.GenHyperlink | dowx/qiye.go:185-188 | the title reads back from inside the anchor tag for the url |
| DoWx.CardColoursDistinct | dowx/qiye.go:155-168 | the three card colours never produce the same text |
| DoWx.MdColoursDistinct | dowx/qiye.go:170-183 | the three Markdown colours never produce the same text |
| DoWx.CardURL | dowx/qiye.go:103-105 | a card's link is never empty: the given link, or "https://example.com" when none is given |
| DoWx.PushText | dowx/qiye.go:38-55 | a well-formed "text" message to the defaulted users, carrying the content as given |
| DoWx.PushTextMsg | dowx/qiye.go:66-83 | a well-formed "text" message to the defaulted users |
| DoWx.PushTextMsgReadBack | dowx/qiye.go:78 | the content splits back into title and message, and the date after the last newline; the title ends at the first newline |
| DoWx.PushCard | dowx/qiye.go:98-123 | a well-formed "textcard" message to the defaulted users, with the title, the button text and the defaulted link |
| DoWx.PushCardReadBack | dowx/qiye.go:115-116 | the description splits at its first newline into the date inside the gray tag and the caller's description |
| DoWx.PushMarkdown | dowx/qiye.go:134-151 | a well-formed "markdown" message to the defaulted users |
| DoWx.PushMarkdownReadBack | dowx/qiye.go:146 | the content and the date can be read back from the Markdown content |
| DoWxPush.Refresh | dowxpush/core.go:21-52 | a token is requested exactly when the cached one is empty or expired; a failed fetch, an undecodable reply or an empty token leaves the cache unchanged; a lifetime that does not parse keeps the new token with the old expiry; success stores the token, expiring the lifetime less the margin after the reply |
| DoWxPush.CachedTokenReused | dowxpush/core.go:23-25 | a freshly fetched token is reused without a request by every later call before its expiry |
| DoWxPush.CoreExpiresEarlier | dowxpush/core.go:44-50 | for the same reply Core's token expires exactly three minutes before Sandbox's |
| DoWxPush.BadDurationRefetched | dowxpush/core.go:44-49 | a token kept after a refused lifetime is never reused: the next call requests a new one |
| DoWxPush.PushOutcome | dowxpush/core.go:55-79 | a token failure is wrapped and nothing is posted; otherwise the post goes to the send address with the token, and the push succeeds exactly when the reply decodes with errcode 0 |
| DoWxPush.SecondPushReusesToken | dowxpush/core.go:55-63 | a second push before expiry requests no token and posts to the same address |
| DoWxPush.Core.NewQiYe | dowxpush/qiye.go:23-25 | the core holds the credentials, no token, and an expiry at creation |
| DoWxPush.Core.GetToken | dowxpush/core.go:21-52 | the cache and error are those of Refresh with the 180-second margin, and the token address is fetched exactly when a token is requested |
| DoWxPush.Core.Push | dowxpush/core.go:55-79 | the cache, error, token fetch and post are those of PushOutcome with the 180-second margin |
| DoWxPush.GenGeneralTpl | dowxpush/sandbox.go:99-105 | exactly the keys title, msg and time, each with one "value": the title followed by one newline, the message followed by two (each value ends with them, and removing them gives the input back) and the time unchanged |
| DoWxPush.Sandbox.NewSandbox | dowxpush/sandbox.go:28-31 | the client holds the credentials, no token, and an expiry at creation |
| DoWxPush.Sandbox.GetToken | dowxpush/sandbox.go:34-63 | the cache and error are those of Refresh with no margin, fetching the test-account token address |
| DoWxPush.Sandbox.PushTpl | dowxpush/sandbox.go:70-96 | the cache, error, token fetch and post of the template body are those of PushOutcome with no margin |
| DoWxPush.QyText | dowxpush/qiye.go:35-52 | a well-formed "text" message to the defaulted users |
| DoWxPush.QyCard | dowxpush/qiye.go:60-81 | a well-formed "textcard" message to the defaulted users, with the link passed through as given, empty included |
| DoWxPush.QyMarkdown | dowxpush/qiye.go:88-102 | a well-formed "markdown" message to the defaulted users |
| DoWxPush.QyStampReadBack | dowxpush/qiye.go:47-100 | the content and the date, joined by a single newline, can be read back |
| DoWxPush.QyCardReadBack | dowxpush/qiye.go:74 | the card description splits at its first newline into the date and the caller's description |
| DoWxPush.MdInfoText | dowxpush/qiye.go:113-116 | the text reads back from inside the info font tag |
| DoWxPush.MdCommentText | dowxpush/qiye.go:118-121 | the text reads back from inside the comment font tag |
| DoWxPush.MdWarningText | dowxpush/qiye.go:123-126 | the text reads back from inside the warning font tag |
| DoWxPush.QiYe.NewQiYe | dowxpush/qiye.go:23-25 | a fresh core with the credentials, no token and an expiry at creation |
| DoWxPush.QiYe.PushText | dowxpush/qiye.go:35-52 | pushes the text message through the core with the WeChat Work addresses, as PushOutcome says |
| DoWxPush.QiYe.PushCard | dowxpush/qiye.go:60-81 | pushes the card message through the core with the WeChat Work addresses, as PushOutcome says |
| DoWxPush.QiYe.PushMarkdown | dowxpush/qiye.go:88-111 | pushes the Markdown message through the core with the WeChat Work addresses, as PushOutcome says |
| WxEntity.Added | dowxpush/sandbox/entity/push_tpl.go:23-26 | the key maps to the new item, the keys are the old ones (none for a nil map) plus the key, and the other keys keep their items |
| WxEntity.AddedOverwrites | dowxpush/sandbox/entity/push_tpl.go:26 | a later AddData with the same key replaces the earlier one |
| WxEntity.AddedCommutes | dowxpush/sandbox/entity/push_tpl.go:26 | AddData calls with different keys can be made in either order |
| WxEntity.PushMsg.constructor | dowxpush/sandbox/entity/push_tpl.go:5-10 | the message holds the addressee, template and link, with a nil keyword map |
| WxEntity.PushMsg.AddData | dowxpush/sandbox/entity/push_tpl.go:22-28 | returns the receiver; its keywords become Added of the old ones, and the other fields are unchanged |
| WxEntity.FillTimeTitleMsg | dowxpush/sandbox/sandbox_test.go:38-40 | three chained calls on a fresh message leave exactly the time, title and msg keywords |

## Left out

- Network I/O. The HTTP clients of `dohttp/client.go` and `http/client.go` are not part of this model, and neither are the requests of `Capture`, `precreate`, `superfile`, `create`, `Send` and the push calls. Each exchange is an input: a decoded answer, or the error that replaced it. Only the 2xx test is modelled.
- MD5 and JSON. MD5 is a function parameter. JSON decoding is folded into the answer inputs. JSON encoding is modelled only for a list of hex digests (`DoBdPan.MarshalDigests`, with `null` for the nil list); the JSON of a media list is an opaque value.
- Floating point: the "%.2f" of `BytesHumanReadable` (only the unit choice is modelled), `math.Ceil` in `Cut` (integer ceiling division instead), `GetDuration`'s float parsing, and the float constant `FileSizeThreshold`.
- Regular expressions: `EscapeMk`, `LegalMk`, `ReplaceMk` and `ResolveFanhao` are specified by scanning characters.
- Concurrency: the goroutine, channel and `io.Pipe` plumbing of `dotg`. A send is modelled as one request whose outcome is given.
- Sleeps and the clock. The wait after a 429 is counted (`TgApi.Deliver`'s `slept`) but not slept. Instants are unbounded integers counting nanoseconds. The send date of the WeChat messages is a string parameter.
- DoWxPush.Refresh: does not model Go's 64-bit wrap-around of `ExpiresIn - 180`. A wrapped value is still refused by `time.ParseDuration`, so the error outcome is the same.
- The external programs FFmpeg and ffprobe. Their outcome is a parameter: the bytes written, or an error. `GetFrame`, `CutMp4` and `GenVideoMedia` are not part of this model; the cutter and the media maker of `SendVideo` are function parameters.
- Fs.Disk.Write: a failed write changes nothing. Go's `io.Copy` into an `*os.File` can write a prefix of the data and then return the error; that partial write is not modelled.
- DoLive.WriteKeeps: "fails and changes nothing recorded" holds of the model only, for the same reason: after a partial write in Go, the current file also holds the bytes written before the error.
- DoLive.LoopOverBudget: the rotation test and `Total` are unbounded integers. In Go, `l.FLSize*len(l.Paths)` and `l.Total += n` are 64-bit and wrap past 2^63 - 1. Only a limit times a file count, or a total, beyond about 9.2 EB reaches that; past it the rotation rule and the bound are not those of the model.
- DoFile.GetMagicNum: the case folding is ASCII only (`Strs.ToLower`). Go's `strings.ToLower` also maps some non-ASCII letters onto ASCII ones, e.g. U+0130 to 'i', so ".gİf" gets the GIF entry in Go and the unknown-format error in the model.
- Fs.Disk.Rename: only a regular file is moved; a directory or special `from` is refused with `NotAFile`. Go's `os.Rename` behind `DFile.Rename` also moves a directory with everything beneath it. The recorder only renames its own segment file, which is regular.
- DoLive.Live.Capture: requires every read to honour the `io.Reader` contract (at most the buffer, and `n` bytes delivered). A reader that breaks it makes `buf[:n]` panic in Go, and that is not modelled.
- DoBdPan.BDFile.UploadFile: requires the same `io.Reader` contract of the file's reader, for the same reason.
- The URL escaping of the remote path is not modelled. Go sends it `url.QueryEscape`d to precreate and superfile (`dopan/dobdpan/upload.go:209`, `:240`) but raw to create (`:277`); the model carries the raw path in all three requests.
- DFiles.BaseName, DFiles.Read, DFiles.WriteAsWritten, DFiles.WriteOutcome, DFiles.Write, DFiles.Md5, DFiles.ListError, DFiles.List and DFiles.ListPaths: require a file whose `FileInfo` is set (`f.info.Some?`). In Go these methods call `IsDir` or `Name` on the embedded `os.FileInfo` (`file/file.go:51`, `:64`, `:84`, `:125`, `:176`), so a `DFile` with a nil `FileInfo` panics. `List` builds such files itself for children whose `os.Stat` failed (`file/file.go:141-153`, modelled by `DFiles.Child` with `info == None`), and any of these methods on one of them panics in Go. The panic is not modelled.
- DoVideo.Cut: requires `maxSegSize > 0`. With 0 the float ceiling is infinite and its conversion to `int` is implementation-defined in Go.
- `dofile.OTrunc`, which `createFileStream` opens segments with, is not defined in `dofile/file.go`. The model opens a segment write-only, creating or truncating it, as the name says.
- The callback-based `New`/`Capture` that `dolive/live_test.go` calls does not exist in `dolive/live.go` and is not modelled.
- The deferred closing of response bodies, readers and files, and the deferred `os.RemoveAll` of `SendVideo`. `DoTg.Deletions` only says which paths are removed.
- Errors of the multipart writer in `SendMediaGroup` (creating a part, copying a stream, closing the writer). They come from the pipe to the HTTP client, which is not part of this model.
- DoTg.WriteMediaGroup: requires the media references of the group to be distinct. A group holding the same `*InputMedia` twice is not modelled.
- In `SendVideo`, a node that is neither a regular file nor missing (a directory) gets the size 0 (`DoTg.SizeOf`).
- The dynamic `Media` values of the Telegram packages are narrowed. In `dotgpush` a value is bytes or a string. In `dotg` it is a stream with its bytes, a string reference, or absent. Other Go types are not modelled.
- DoTg.ResendKeepsUploads: a stream is modelled by its bytes, so it can be read again. In Go each attempt drains and closes the readers, and a rebuilt request must buffer or reopen them; the lemma holds of the model's replayable streams only.
- Constructors and configuration without logic: `NewTGBot`, `SetProxy` and `SetAddr` of both Telegram packages, `GetYikeReq` and `GetTeraboxReq` (fixed URL sets), and the HTTP clients stored in `Sandbox` and `Core`.
- `NewPath` of `dobdpan` (it stats and opens a local file) and `DelAll` (a paged deletion over the network with random sleeps).
- `Read`, `Write` and `Md5` of `dofile` (thin wrappers over `os.OpenFile` and `io.ReadAll`), `OpenAs` and `ShowInExplorer` (they start OS programs), and `DFile.Del` (`os.RemoveAll`). The `file` package's own `Read`, `Write` and `Md5` are modelled.
- The charset, date and Base64 helpers of `dotext` (`DetectFileCoding`, `DetectTextCoding`, `Text2UTF8`, `File2UTF8`, `FormatDate`, `BeiJingTime`, `Base64Encode`, `Base64Decode`). They wrap libraries.
- The `Core` type of package `dowx` is not part of this model. The `Push*` methods of `dowx/qiye.go` are modelled as the messages they hand to it. The generic `Push(data)` of both WeChat clients adds nothing to `Core.Push`.
- The `json.Marshal` and `fmt.Printf` that `dowxpush`'s `PushMarkdown` performs before pushing (a debugging print).
- `aTime()`, which `dowxpush/qiye.go` calls for the card date, is not defined in the package. The model takes the date as a parameter, like the other builders.
- Key-value stores, logging, configuration, audio and OS-specific files of the repository are outside the modelled packages.

## Findings

| source | as written | input that shows it | evidently intended | confidence | as-written member | corrected member |
|---|---|---|---|---|---|---|
| dolive/live.go:49 | `strings.TrimRight(base, ext)` trims every trailing character that occurs in the extension | path "shell.flv" gives the name "she" | strip the extension as a suffix (`TrimSuffix`), giving "shell" | high, not executed | DoLive.SplitOutputPathAsWrittenLosesName | DoLive.SplitOutputPathRoundTrip |
| dovideo/video.go:230-235 | `dimensions[1]` is indexed without checking that the output held an 'x' | ffprobe output "1920\n" makes the index panic | report a height error | medium, not executed | DoVideo.GetResolutionBareNumber | DoVideo.GetResolutionReadsBack |
| file/file.go:67-74 | `Write` opens with `O_APPEND` or `O_TRUNC` plus `O_CREATE` and no access mode, which is read-only | any `Write(data, false)` on a file empties it and then fails with a bad descriptor | open write-only, so the data is written | high, not executed | DFiles.WriteAsWrittenNeverWrites | DFiles.WriteThenRead |
| dofile/file.go:165 | the suffix is `path[strings.LastIndex(path, "."):]`, and the index is -1 without a '.' | `CheckIntegrity("/tmp/photo")` on an existing file panics | a path without a '.' has an unknown format | high, not executed | DoFile.SuffixAsWrittenPanics | DoFile.CheckIntegrity |
| dofile/file.go:83 | the destination is opened with `O_CREATE` and `O_TRUNC` and no access mode, which is read-only | copying a non-empty file to a new path fails and leaves an empty file | open write-only, so the bytes are copied | high, not executed | DoFile.CopyAsWrittenLosesData | DoFile.CopyDelivers |
| dotg/sender.go:235 | the loop rewrites the caller's `InputMedia` in place, and the resend after a 429 passes the rewritten slice | a group with one stream answered first by a 429 resends "attach://media0" with no file part | rebuild every attempt from the original media, as `dotgpush` does; since each attempt drains and closes the media readers (dotg/sender.go:225-233), the streams must also be buffered or reopened for the resend, which the model assumes by taking a stream as its bytes | high, not executed | DoTg.ResendLosesUploads | DoTg.ResendKeepsUploads |
| dotg/sender.go:371 | the cutter is given `path`, which was removed after the conversion | a ".mkv" video larger than the threshold is cut from a path that no longer exists | cut `newPath`, the video that was measured | high, not executed | DoTg.CutReadsRemovedFile | DoTg.CutReadsConvertedVideo |
