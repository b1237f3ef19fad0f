/** Package `file`: a path together with the `os.FileInfo` read when it was looked up
    (`DFile`), and the operations on it. The `FileInfo` is a snapshot: it is not refreshed
    when the file system changes afterwards. Paths use the Unix separator '/'. */
module DFiles {
  import opened Wrappers
  import opened Strs
  import opened Streams
  import opened PathUtil
  import Hex
  import Fs

  /** The filter tags of `List`. */
  const FileTag: string := "FILE"
  const DirTag: string := "DIR"
  const AllTag: string := FileTag + " " + DirTag

  /** The part of `os.FileInfo` the package looks at. */
  datatype Info = Info(name: string, isDir: bool)

  /** A `DFile`; `info` is `None` where the source holds a nil `FileInfo`. */
  datatype DFile = DFile(path: string, info: Option<Info>)

  datatype Error =
    | IsFile                      // ErrIsFile
    | IsDir                       // ErrIsDir
    | BadFilter                   // the unknown-filter error of `List`
    | BadDescriptor(path: string) // writing through a descriptor opened read-only
    | Os(err: Fs.FsError)

  /** One entry of `ioutil.ReadDir`; `isDir` is the entry's own type, not its target's. */
  datatype Entry = Entry(name: string, isDir: bool)

  /** What `os.Stat` of `p` says about it: the element name and whether it is a directory. */
  function StatInfo(nodes: map<string, Fs.Node>, faulty: set<string>, p: string): (r: Option<Info>)
    ensures r.Some? <==> Fs.StatOf(nodes, faulty, p).Found?
    ensures r.Some? ==> r.value == Info(Base(p), nodes[p].Dir?)
  {
    match Fs.StatOf(nodes, faulty, p)
    case Found(n) => Some(Info(Base(p), n.Dir?))
    case _ => None
  }

  /** `Get`: the path and its `FileInfo`, or the error of `os.Stat`. */
  function Get(nodes: map<string, Fs.Node>, faulty: set<string>, path: string): (r: Result<DFile, Error>)
    ensures r.Ok? <==> path !in faulty && path in nodes
    ensures r.Ok? ==> r.value == DFile(path, StatInfo(nodes, faulty, path)) && r.value.info.Some?
    ensures path !in faulty && path !in nodes ==> r == Err(Os(Fs.NotExist(path)))
  {
    match Fs.StatOf(nodes, faulty, path)
    case Found(n) => Ok(DFile(path, Some(Info(Base(path), n.Dir?))))
    case Missing => Err(Os(Fs.NotExist(path)))
    case StatFailed(e) => Err(Os(e))
  }

  /** `BaseName`: the name without its last '.' and what follows it. */
  function BaseName(f: DFile): (r: string)
    requires f.info.Some?
    ensures var name := f.info.value.name;
      && HasPrefix(name, r)
      && ('.' !in name ==> r == name)
      && ('.' in name ==> |r| < |name| && name[|r|] == '.' && '.' !in name[|r| + 1..])
  {
    var name := f.info.value.name;
    var d := LastIndex(name, '.');
    if d >= 0 then name[..d] else name
  }

  /** A name that starts with its only '.' has an empty base name. */
  lemma BaseNameDotFile()
    ensures BaseName(DFile("/home/u/.bashrc", Some(Info(".bashrc", false)))) == ""
  {
    assert LastIndex(".bashrc", '.') == 0 by {
      var s := ".bashrc";
      assert s[0] == '.';
      assert forall k :: 0 < k < |s| ==> s[k] != '.';
    }
  }

  /** `ParentPath`: the path up to its last separator when that separator is not the first
      character; otherwise the path itself, or the separator alone for the empty path. */
  function ParentPath(path: string): (r: string)
    ensures path == "" ==> r == [Sep]
    ensures path != "" ==> r != "" && HasPrefix(path, r)
    ensures path != "" && |r| < |path| ==>
      path[|r|] == Sep && forall k :: |r| < k < |path| ==> path[k] != Sep
    ensures path != "" && |r| == |path| ==> forall k :: 0 < k < |path| ==> path[k] != Sep
  {
    var i := LastIndex(path, Sep);
    if i > 0 then path[..i] else if path == "" then [Sep] else path
  }

  /** "/home/user" has the parent "/home", while "/home" is kept as it is. */
  lemma ParentPathExamples()
    ensures ParentPath("/home/user") == "/home"
    ensures ParentPath("/home") == "/home"
  {
    var p := "/home/user";
    assert p[5] == Sep && forall k :: 5 < k < |p| ==> p[k] != Sep;
    assert LastIndex(p, Sep) == 5;
    var q := "/home";
    assert q[0] == Sep && forall k :: 0 < k < |q| ==> q[k] != Sep;
    assert LastIndex(q, Sep) == 0;
  }

  /** `Parent`: the `DFile` of the parent path, or nil when it cannot be looked up. */
  function Parent(nodes: map<string, Fs.Node>, faulty: set<string>, f: DFile): (r: Option<DFile>)
    ensures r.Some? <==> Get(nodes, faulty, ParentPath(f.path)).Ok?
    ensures r.Some? ==> r.value.path == ParentPath(f.path) && r.value.info.Some?
  {
    match Get(nodes, faulty, ParentPath(f.path))
    case Ok(p) => Some(p)
    case Err(_) => None
  }

  /** `Read`: a directory is refused from the snapshot; otherwise the current contents. */
  function Read(nodes: map<string, Fs.Node>, faulty: set<string>, f: DFile): (r: Result<Bytes, Error>)
    requires f.info.Some?
    ensures f.info.value.isDir ==> r == Err(IsDir)
    ensures r.Ok? <==> !f.info.value.isDir && f.path !in faulty && f.path in nodes && nodes[f.path].File?
    ensures r.Ok? ==> r.value == nodes[f.path].data
  {
    if f.info.value.isDir then Err(IsDir)
    else match Fs.StatOf(nodes, faulty, f.path)
      case Found(n) => if n.File? then Ok(n.data) else Err(Os(Fs.NotAFile(f.path)))
      case Missing => Err(Os(Fs.NotExist(f.path)))
      case StatFailed(e) => Err(Os(e))
  }

  /** The outcome of `Write`: the count written, the error, and the nodes afterwards. */
  datatype Written = Written(n: nat, err: Option<Error>, nodes: map<string, Fs.Node>)

  /** The contents of `p` right after `os.OpenFile` with O_CREATE and O_APPEND (kept) or
      O_TRUNC (emptied). */
  function Opened(nodes: map<string, Fs.Node>, p: string, append: bool): Bytes
  {
    if append && p in nodes && nodes[p].File? then nodes[p].data else []
  }

  /** `Write` as written: the flags hold no access mode, so the file is opened read-only
      (created, and emptied when not appending), and the write through it always fails. */
  function WriteAsWritten(nodes: map<string, Fs.Node>, faulty: set<string>, f: DFile, data: Bytes, append: bool): (r: Written)
    requires f.info.Some?
  {
    if f.info.value.isDir then Written(0, Some(IsDir), nodes)
    else match Fs.OpenError(nodes, faulty, f.path)
      case Some(e) => Written(0, Some(Os(e)), nodes)
      case None => Written(0, Some(BadDescriptor(f.path)), nodes[f.path := Fs.File(Opened(nodes, f.path, append))])
  }

  /** However the call is made, the write as written reports an error, and when it gets as
      far as opening a file for replacement it leaves that file empty. */
  lemma WriteAsWrittenNeverWrites(nodes: map<string, Fs.Node>, faulty: set<string>, f: DFile, data: Bytes, append: bool)
    requires f.info.Some?
    ensures var w := WriteAsWritten(nodes, faulty, f, data, append);
      && w.err.Some? && w.n == 0
      && (!append && !f.info.value.isDir && Fs.OpenError(nodes, faulty, f.path).None? ==>
            Read(w.nodes, faulty, f) == Ok([]))
  {
  }

  /** `Write` with the write-only access mode it evidently intends. */
  function WriteOutcome(nodes: map<string, Fs.Node>, faulty: set<string>, unwritable: set<string>, f: DFile, data: Bytes, append: bool): (r: Written)
    requires f.info.Some?
  {
    if f.info.value.isDir then Written(0, Some(IsDir), nodes)
    else match Fs.OpenError(nodes, faulty, f.path)
      case Some(e) => Written(0, Some(Os(e)), nodes)
      case None =>
        var start := Opened(nodes, f.path, append);
        var created := nodes[f.path := Fs.File(start)];
        match Fs.WriteError(created, unwritable, f.path)
        case Some(e) => Written(0, Some(Os(e)), created)
        case None => Written(|data|, None, created[f.path := Fs.File(start + data)])
  }

  /** When the write succeeds, reading the file back gives the data (after the old contents
      when appending); the write succeeds exactly when the snapshot is not a directory and
      the path can be opened and written; no other path changes. */
  lemma WriteThenRead(nodes: map<string, Fs.Node>, faulty: set<string>, unwritable: set<string>, f: DFile, data: Bytes, append: bool)
    requires f.info.Some?
    ensures var w := WriteOutcome(nodes, faulty, unwritable, f, data, append);
      && (w.err.None? <==> !f.info.value.isDir && f.path !in faulty && f.path !in unwritable
                            && (f.path in nodes ==> nodes[f.path].File?))
      && (w.err.None? ==> w.n == |data|)
      && (w.err.None? && !append ==> Read(w.nodes, faulty, f) == Ok(data))
      && (w.err.None? && append && Read(nodes, faulty, f).Ok? ==>
            Read(w.nodes, faulty, f) == Ok(Read(nodes, faulty, f).value + data))
      && (forall q :: q != f.path ==> (q in w.nodes <==> q in nodes) && (q in nodes ==> w.nodes[q] == nodes[q]))
  {
    if !f.info.value.isDir && Fs.OpenError(nodes, faulty, f.path).None? {
      var start := Opened(nodes, f.path, append);
      if !append {
        assert start + data == data;
      }
    }
  }

  /** `Write`, applied to the disk. */
  method Write(disk: Fs.Disk, f: DFile, data: Bytes, append: bool) returns (n: nat, err: Option<Error>)
    requires f.info.Some?
    modifies disk`nodes
    ensures Written(n, err, disk.nodes) == WriteOutcome(old(disk.nodes), disk.faulty, disk.unwritable, f, data, append)
  {
    if f.info.value.isDir {
      return 0, Some(IsDir);
    }
    var openErr := Fs.OpenError(disk.nodes, disk.faulty, f.path);
    if openErr.Some? {
      return 0, Some(Os(openErr.value));
    }
    var start := Opened(disk.nodes, f.path, append);
    disk.nodes := disk.nodes[f.path := Fs.File(start)];
    var writeErr := Fs.WriteError(disk.nodes, disk.unwritable, f.path);
    if writeErr.Some? {
      return 0, Some(Os(writeErr.value));
    }
    disk.nodes := disk.nodes[f.path := Fs.File(start + data)];
    n, err := |data|, None;
  }

  /** `Md5`: the digest of the contents as lower-case base16 (section 8 of RFC 4648), with
      MD5 itself a parameter. It fails exactly when reading the file fails, and the text
      decodes back to the digest. */
  function Md5(nodes: map<string, Fs.Node>, faulty: set<string>, f: DFile, digest: Bytes -> Bytes): (r: Result<string, Error>)
    requires f.info.Some?
    ensures r.Ok? <==> Read(nodes, faulty, f).Ok?
    ensures r.Err? ==> r.error == Read(nodes, faulty, f).error
    ensures r.Ok? ==> Hex.Decode(r.value) == Some(digest(Read(nodes, faulty, f).value))
  {
    match Read(nodes, faulty, f)
    case Ok(data) =>
      Hex.DecodeEncodeLower(digest(data));
      Ok(Hex.EncodeLower(digest(data)))
    case Err(e) => Err(e)
  }

  predicate KnownFilter(filter: string)
  {
    filter == FileTag || filter == DirTag || filter == AllTag
  }

  /** Whether `filter` selects `e`. */
  predicate Keeps(filter: string, e: Entry)
  {
    (filter == FileTag && !e.isDir) || (filter == DirTag && e.isDir) || filter == AllTag
  }

  /** The entries `filter` selects, in directory order. */
  function Kept(entries: seq<Entry>, filter: string): (r: seq<Entry>)
    ensures |r| <= |entries|
  {
    if entries == [] then []
    else
      var last := entries[|entries| - 1];
      assert entries == entries[..|entries| - 1] + [last];
      Kept(entries[..|entries| - 1], filter) + (if Keeps(filter, last) then [last] else [])
  }

  lemma KeptSnoc(entries: seq<Entry>, e: Entry, filter: string)
    ensures Kept(entries + [e], filter) == Kept(entries, filter) + (if Keeps(filter, e) then [e] else [])
  {
    assert (entries + [e])[..|entries|] == entries;
  }

  /** An entry is kept exactly when it is listed and the filter selects it. */
  lemma {:induction false} KeptMembers(entries: seq<Entry>, filter: string)
    ensures forall e :: e in Kept(entries, filter) <==> e in entries && Keeps(filter, e)
  {
    if entries != [] {
      var init := entries[..|entries| - 1];
      KeptMembers(init, filter);
      assert entries == init + [entries[|entries| - 1]];
    }
  }

  /** ALL keeps every entry in order. */
  lemma {:induction false} KeptAll(entries: seq<Entry>)
    ensures Kept(entries, AllTag) == entries
  {
    if entries != [] {
      var init := entries[..|entries| - 1];
      KeptAll(init);
      assert entries == init + [entries[|entries| - 1]];
    }
  }

  /** FILE and DIR split the entries between them. */
  lemma {:induction false} KeptPartition(entries: seq<Entry>)
    ensures |Kept(entries, FileTag)| + |Kept(entries, DirTag)| == |entries|
  {
    if entries != [] {
      var init := entries[..|entries| - 1];
      KeptPartition(init);
      assert entries == init + [entries[|entries| - 1]];
    }
  }

  /** The path `List` builds for an entry. */
  function ChildPath(dir: string, e: Entry): string
  {
    Clean(dir + [Sep] + e.name)
  }

  /** A path `List` builds is already clean: cleaning it again gives it back. */
  lemma ChildPathClean(dir: string, e: Entry)
    ensures Clean(ChildPath(dir, e)) == ChildPath(dir, e)
  {
    PathUtil.CleanIdempotent(dir + [Sep] + e.name);
  }

  /** Why `List` fails, if it does: a snapshot that is not a directory, a failed `ReadDir`,
      or an unknown filter met at the first entry. */
  function ListError(f: DFile, readDir: Result<seq<Entry>, Fs.FsError>, filter: string): (r: Option<Error>)
    requires f.info.Some?
    ensures r == Some(BadFilter) <==> f.info.value.isDir && readDir.Ok? && readDir.value != [] && !KnownFilter(filter)
    ensures r.None? <==> f.info.value.isDir && readDir.Ok? && (readDir.value == [] || KnownFilter(filter))
  {
    if !f.info.value.isDir then Some(IsFile)
    else if readDir.Err? then Some(Os(readDir.error))
    else if readDir.value != [] && !KnownFilter(filter) then Some(BadFilter)
    else None
  }

  /** The `DFile` `List` makes of an entry: its path and a fresh `os.Stat` of that path. */
  function Child(nodes: map<string, Fs.Node>, faulty: set<string>, dir: string, e: Entry): DFile
  {
    DFile(ChildPath(dir, e), StatInfo(nodes, faulty, ChildPath(dir, e)))
  }

  /** The `DFile`s of `kept`, in order. */
  function Children(nodes: map<string, Fs.Node>, faulty: set<string>, dir: string, kept: seq<Entry>): (r: seq<DFile>)
    ensures |r| == |kept|
    ensures forall j :: 0 <= j < |kept| ==> r[j] == Child(nodes, faulty, dir, kept[j])
  {
    if kept == [] then []
    else Children(nodes, faulty, dir, kept[..|kept| - 1]) + [Child(nodes, faulty, dir, kept[|kept| - 1])]
  }

  /** The paths of the `DFile`s, one per kept entry. */
  lemma ChildrenPaths(nodes: map<string, Fs.Node>, faulty: set<string>, dir: string, kept: seq<Entry>, files: seq<DFile>, paths: seq<string>)
    requires files == Children(nodes, faulty, dir, kept)
    requires |paths| == |files| && forall j :: 0 <= j < |files| ==> paths[j] == files[j].path
    ensures |paths| == |kept|
    ensures forall j :: 0 <= j < |kept| ==> paths[j] == ChildPath(dir, kept[j])
  {
  }

  /** One more entry read adds its `DFile` exactly when the filter selects it. */
  lemma ChildrenStep(nodes: map<string, Fs.Node>, faulty: set<string>, dir: string, entries: seq<Entry>, i: nat, filter: string)
    requires i < |entries|
    ensures Children(nodes, faulty, dir, Kept(entries[..i + 1], filter))
         == Children(nodes, faulty, dir, Kept(entries[..i], filter))
            + (if Keeps(filter, entries[i]) then [Child(nodes, faulty, dir, entries[i])] else [])
  {
    assert entries[..i + 1] == entries[..i] + [entries[i]];
    KeptSnoc(entries[..i], entries[i], filter);
    var k := Kept(entries[..i], filter);
    if Keeps(filter, entries[i]) {
      assert (k + [entries[i]])[..|k|] == k;
    }
  }

  /** `List`: the entries the filter selects, each with its path and a fresh `os.Stat`
      (nil when that fails), in `ReadDir` order. */
  method List(nodes: map<string, Fs.Node>, faulty: set<string>, f: DFile, readDir: Result<seq<Entry>, Fs.FsError>, filter: string)
    returns (r: Result<seq<DFile>, Error>)
    requires f.info.Some?
    ensures r.Err? <==> ListError(f, readDir, filter).Some?
    ensures r.Err? ==> r.error == ListError(f, readDir, filter).value
    ensures r.Ok? ==> r.value == Children(nodes, faulty, f.path, Kept(readDir.value, filter))
  {
    if !f.info.value.isDir {
      return Err(IsFile);
    }
    if readDir.Err? {
      return Err(Os(readDir.error));
    }
    var entries := readDir.value;
    var files: seq<DFile> := [];
    var i := 0;
    while i < |entries|
      invariant 0 <= i <= |entries|
      invariant i > 0 ==> KnownFilter(filter)
      invariant files == Children(nodes, faulty, f.path, Kept(entries[..i], filter))
    {
      var e := entries[i];
      var path := Clean(f.path + [Sep] + e.name);
      var file := DFile(path, StatInfo(nodes, faulty, path));
      ChildrenStep(nodes, faulty, f.path, entries, i, filter);
      if filter == FileTag {
        if !e.isDir {
          files := files + [file];
        }
      } else if filter == DirTag {
        if e.isDir {
          files := files + [file];
        }
      } else if filter == AllTag {
        files := files + [file];
      } else {
        return Err(BadFilter);
      }
      i := i + 1;
    }
    assert entries[..i] == entries;
    return Ok(files);
  }

  /** `ListPaths`: the path of every file `List` gives, in the same order. */
  method ListPaths(nodes: map<string, Fs.Node>, faulty: set<string>, f: DFile, readDir: Result<seq<Entry>, Fs.FsError>, filter: string)
    returns (r: Result<seq<string>, Error>)
    requires f.info.Some?
    ensures r.Err? <==> ListError(f, readDir, filter).Some?
    ensures r.Err? ==> r.error == ListError(f, readDir, filter).value
    ensures r.Ok? ==> var kept := Kept(readDir.value, filter);
      && |r.value| == |kept|
      && forall j :: 0 <= j < |kept| ==> r.value[j] == ChildPath(f.path, kept[j])
    ensures r.Ok? ==> forall j :: 0 <= j < |r.value| ==> Clean(r.value[j]) == r.value[j]
  {
    var listed := List(nodes, faulty, f, readDir, filter);
    if listed.Err? {
      return Err(listed.error);
    }
    var paths := PathsOf(listed.value);
    var kept := Kept(readDir.value, filter);
    ChildrenPaths(nodes, faulty, f.path, kept, listed.value, paths);
    forall j | 0 <= j < |kept|
      ensures Clean(paths[j]) == paths[j]
    {
      ChildPathClean(f.path, kept[j]);
    }
    return Ok(paths);
  }

  /** The loop of `ListPaths`: the path of each `DFile`, in order. */
  method PathsOf(dfiles: seq<DFile>) returns (paths: seq<string>)
    ensures |paths| == |dfiles| && forall j :: 0 <= j < |dfiles| ==> paths[j] == dfiles[j].path
  {
    paths := [];
    var i := 0;
    while i < |dfiles|
      invariant 0 <= i <= |dfiles|
      invariant |paths| == i && forall j :: 0 <= j < i ==> paths[j] == dfiles[j].path
    {
      paths := paths + [dfiles[i].path];
      i := i + 1;
    }
  }
}
