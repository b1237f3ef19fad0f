/** The slice of the operating system's file system the modelled code touches through Go's
    `os` package: a map from path to node, open handles, and the paths whose operations
    fail for reasons the model does not look into (permissions, a full disk, I/O errors). */
module Fs {
  import opened Wrappers
  import opened Streams

  /** A regular file with its bytes, a directory, or another kind of node (a device, a
      socket, a symbolic link). */
  datatype Node = File(data: Bytes) | Dir | Special

  datatype FsError =
    | NotExist(path: string)
    | Faulty(path: string)
    | NotAFile(path: string)
    | WriteFault(path: string)
    | NotOpen

  datatype Handle = Handle(id: nat, path: string)

  /** What `os.Stat` reports: the node, "does not exist", or another error. */
  datatype StatResult = Found(node: Node) | Missing | StatFailed(err: FsError)

  function StatOf(nodes: map<string, Node>, faulty: set<string>, p: string): (r: StatResult)
    ensures r.Missing? <==> p !in faulty && p !in nodes
    ensures r.Found? ==> p in nodes && r.node == nodes[p]
  {
    if p in faulty then StatFailed(Faulty(p))
    else if p in nodes then Found(nodes[p])
    else Missing
  }

  /** Why opening `p` for writing with create and truncate fails, if it does. */
  function OpenError(nodes: map<string, Node>, faulty: set<string>, p: string): (r: Option<FsError>)
    ensures r.None? <==> p !in faulty && (p in nodes ==> nodes[p].File?)
  {
    if p in faulty then Some(Faulty(p))
    else if p in nodes && !nodes[p].File? then Some(NotAFile(p))
    else None
  }

  /** Why renaming the file `from` to `to` fails, if it does. Only regular files are moved. */
  function RenameError(nodes: map<string, Node>, faulty: set<string>, from: string, to: string): (r: Option<FsError>)
    ensures r.None? <==> from !in faulty && to !in faulty && from in nodes && nodes[from].File?
                         && (to in nodes ==> !nodes[to].Dir?)
  {
    if from in faulty then Some(Faulty(from))
    else if to in faulty then Some(Faulty(to))
    else if from !in nodes then Some(NotExist(from))
    else if !nodes[from].File? then Some(NotAFile(from))
    else if to in nodes && nodes[to].Dir? then Some(NotAFile(to))
    else None
  }

  /** The nodes after a successful rename: `from` is gone and `to` holds what `from` held. */
  function Renamed(nodes: map<string, Node>, from: string, to: string): (r: map<string, Node>)
    requires from in nodes
    ensures to in r && r[to] == nodes[from]
    ensures from != to ==> from !in r
    ensures forall q :: q != from && q != to ==> (q in r <==> q in nodes) && (q in r ==> r[q] == nodes[q])
  {
    if from == to then nodes else (nodes - {from})[to := nodes[from]]
  }

  /** Why writing to the file at `p` through an open handle fails, if it does. */
  function WriteError(nodes: map<string, Node>, unwritable: set<string>, p: string): (r: Option<FsError>)
    ensures r.None? <==> p in nodes && nodes[p].File? && p !in unwritable
  {
    if p in nodes && nodes[p].File? && p !in unwritable then None else Some(WriteFault(p))
  }

  class Disk {
    var nodes: map<string, Node>
    var open: set<nat>
    var nextHandle: nat
    const faulty: set<string>
    const unwritable: set<string>

    ghost predicate Valid()
      reads this
    {
      forall id :: id in open ==> id < nextHandle
    }

    constructor (nodes: map<string, Node>, faulty: set<string>, unwritable: set<string>)
      ensures Valid()
      ensures this.nodes == nodes && this.faulty == faulty && this.unwritable == unwritable
      ensures open == {}
    {
      this.nodes := nodes;
      this.faulty := faulty;
      this.unwritable := unwritable;
      open := {};
      nextHandle := 0;
    }

    function Stat(p: string): (r: StatResult)
      reads this
      ensures r == StatOf(nodes, faulty, p)
    {
      StatOf(nodes, faulty, p)
    }

    /** `os.OpenFile(p, O_WRONLY|O_CREATE|O_TRUNC, perm)`. */
    method OpenTrunc(p: string) returns (r: Result<Handle, FsError>)
      requires Valid()
      modifies this
      ensures Valid()
      ensures r.Err? <==> OpenError(old(nodes), faulty, p).Some?
      ensures r.Err? ==> (r.error == OpenError(old(nodes), faulty, p).value
                          && nodes == old(nodes) && open == old(open) && nextHandle == old(nextHandle))
      ensures r.Ok? ==> (r.value.path == p && r.value.id !in old(open)
                         && nodes == old(nodes)[p := File([])] && open == old(open) + {r.value.id})
      ensures r.Ok? ==> r.value.id == old(nextHandle) && nextHandle == old(nextHandle) + 1
    {
      var e := OpenError(nodes, faulty, p);
      if e.Some? {
        return Err(e.value);
      }
      r := Ok(Handle(nextHandle, p));
      nodes := nodes[p := File([])];
      open := open + {nextHandle};
      nextHandle := nextHandle + 1;
    }

    /** `os.Rename(from, to)` on regular files. */
    method Rename(from: string, to: string) returns (err: Option<FsError>)
      modifies this`nodes
      ensures err == RenameError(old(nodes), faulty, from, to)
      ensures err.None? ==> nodes == Renamed(old(nodes), from, to)
      ensures err.Some? ==> nodes == old(nodes)
    {
      err := RenameError(nodes, faulty, from, to);
      if err.None? {
        nodes := Renamed(nodes, from, to);
      }
    }

    /** `Write` on the handle `h`: the whole of `data` is appended, or nothing is. */
    method Write(h: Handle, data: Bytes) returns (err: Option<FsError>)
      modifies this`nodes
      ensures h.id !in open ==> err == Some(NotOpen) && nodes == old(nodes)
      ensures h.id in open ==> err == WriteError(old(nodes), unwritable, h.path)
      ensures err.None? ==> nodes == old(nodes)[h.path := File(old(nodes)[h.path].data + data)]
      ensures err.Some? ==> nodes == old(nodes)
    {
      if h.id !in open {
        return Some(NotOpen);
      }
      err := WriteError(nodes, unwritable, h.path);
      if err.None? {
        nodes := nodes[h.path := File(nodes[h.path].data + data)];
      }
    }

    /** `Close` on the handle `h`; closing twice reports an error and changes nothing. */
    method Close(h: Handle) returns (err: Option<FsError>)
      requires Valid()
      modifies this`open
      ensures Valid()
      ensures open == old(open) - {h.id}
      ensures err.None? <==> h.id in old(open)
    {
      if h.id in open {
        open := open - {h.id};
        err := None;
      } else {
        err := Some(NotOpen);
      }
    }

    /** `os.Remove(p)`. */
    method Remove(p: string) returns (err: Option<FsError>)
      modifies this`nodes
      ensures err.None? <==> p !in faulty && p in old(nodes)
      ensures err.None? ==> nodes == old(nodes) - {p}
      ensures err.Some? ==> nodes == old(nodes)
    {
      if p in faulty {
        return Some(Faulty(p));
      }
      if p !in nodes {
        return Some(NotExist(p));
      }
      nodes := nodes - {p};
      err := None;
    }
  }
}
