/** Go's `path/filepath` with the Unix separator '/': `Clean`, `Join` of two elements,
    `Dir`, `Base` and `Ext`. `Clean` works on the '/'-separated segments of its argument:
    empty and "." segments vanish, ".." removes the segment before it when there is one
    to remove, a rooted path cannot climb above "/", and an empty result reads ".". */
module PathUtil {
  import opened Strs

  const Sep: char := '/'

  /** A segment that `Clean` keeps as it is. */
  predicate IsName(seg: string)
  {
    seg != "" && seg != "." && seg != ".." && Sep !in seg
  }

  /** The segment stack `Clean` builds: names, and (only in a relative path) a run of ".."
      at the front that could not be cancelled. */
  predicate Reduced(stack: seq<string>, rooted: bool)
  {
    (forall k :: 0 <= k < |stack| ==> IsName(stack[k]) || (!rooted && stack[k] == ".."))
    && (forall i, j :: 0 <= i < j < |stack| && stack[j] == ".." ==> stack[i] == "..")
  }

  /** One step of `Clean`'s scan: the effect of the next segment on the stack. */
  function Push(stack: seq<string>, seg: string, rooted: bool): seq<string>
  {
    if seg == "" || seg == "." then stack
    else if seg == ".." then
      if |stack| > 0 && stack[|stack| - 1] != ".." then stack[..|stack| - 1]
      else if rooted then stack
      else stack + [".."]
    else stack + [seg]
  }

  function ReduceFrom(stack: seq<string>, segs: seq<string>, rooted: bool): seq<string>
    decreases |segs|
  {
    if segs == [] then stack else ReduceFrom(Push(stack, segs[0], rooted), segs[1..], rooted)
  }

  /** `filepath.Clean`. */
  function Clean(p: string): string
  {
    if p == "" then "."
    else
      var rooted := p[0] == Sep;
      var stack := ReduceFrom([], Split(p, Sep), rooted);
      if rooted then [Sep] + JoinWith(stack, [Sep])
      else if stack == [] then "."
      else JoinWith(stack, [Sep])
  }

  lemma PushReduced(stack: seq<string>, seg: string, rooted: bool)
    requires Reduced(stack, rooted) && Sep !in seg
    ensures Reduced(Push(stack, seg, rooted), rooted)
  {
  }

  lemma {:induction false} ReduceFromReduced(stack: seq<string>, segs: seq<string>, rooted: bool)
    requires Reduced(stack, rooted)
    requires forall k :: 0 <= k < |segs| ==> Sep !in segs[k]
    ensures Reduced(ReduceFrom(stack, segs, rooted), rooted)
    decreases |segs|
  {
    if segs != [] {
      PushReduced(stack, segs[0], rooted);
      ReduceFromReduced(Push(stack, segs[0], rooted), segs[1..], rooted);
    }
  }

  /** Scanning segments that are already reduced changes nothing: they are pushed as they are. */
  lemma {:induction false} ReduceFromReducedIsAppend(acc: seq<string>, segs: seq<string>, rooted: bool)
    requires Reduced(acc + segs, rooted)
    ensures ReduceFrom(acc, segs, rooted) == acc + segs
    decreases |segs|
  {
    if segs != [] {
      var all := acc + segs;
      assert all[|acc|] == segs[0];
      if segs[0] == ".." {
        assert forall i :: 0 <= i < |acc| ==> acc[i] == all[i] == "..";
      }
      assert Push(acc, segs[0], rooted) == acc + [segs[0]];
      assert (acc + [segs[0]]) + segs[1..] == all;
      ReduceFromReducedIsAppend(acc + [segs[0]], segs[1..], rooted);
    }
  }

  lemma {:induction false} IndexOfJoin(a: string, rest: string, c: char)
    requires c !in a
    ensures IndexOf(a + [c] + rest, c) == |a|
  {
    var s := a + [c] + rest;
    var i := IndexOf(s, c);
    assert s[|a|] == c;
    assert forall k :: 0 <= k < |a| ==> s[k] == a[k];
  }

  lemma SplitCons(a: string, rest: string, c: char)
    requires c !in a
    ensures Split(a + [c] + rest, c) == [a] + Split(rest, c)
  {
    var s := a + [c] + rest;
    IndexOfJoin(a, rest, c);
    assert s[..|a|] == a;
    assert s[|a| + 1..] == rest;
  }

  /** Splitting a join of separator-free parts gives the parts back. */
  lemma {:induction false} SplitJoin(parts: seq<string>, c: char)
    requires |parts| >= 1
    requires forall k :: 0 <= k < |parts| ==> c !in parts[k]
    ensures Split(JoinWith(parts, [c]), c) == parts
    decreases |parts|
  {
    if |parts| == 1 {
      assert JoinWith(parts, [c]) == parts[0];
    } else {
      var rest := JoinWith(parts[1..], [c]);
      assert JoinWith(parts, [c]) == parts[0] + [c] + rest;
      SplitCons(parts[0], rest, c);
      SplitJoin(parts[1..], c);
      assert parts == [parts[0]] + parts[1..];
    }
  }

  lemma {:induction false} JoinWithFirst(parts: seq<string>, c: char)
    requires |parts| >= 1 && parts[0] != ""
    ensures JoinWith(parts, [c]) != "" && JoinWith(parts, [c])[0] == parts[0][0]
    decreases |parts|
  {
  }

  lemma SegmentsHaveNoSep(stack: seq<string>, rooted: bool)
    requires Reduced(stack, rooted)
    ensures forall k :: 0 <= k < |stack| ==> Sep !in stack[k]
  {
  }

  /** Scanning a rooted join of a reduced stack gives the stack back. */
  lemma RootedJoinReduces(stack: seq<string>)
    requires Reduced(stack, true)
    ensures ReduceFrom([], Split([Sep] + JoinWith(stack, [Sep]), Sep), true) == stack
  {
    var body := JoinWith(stack, [Sep]);
    var c := [Sep] + body;
    assert Split(c, Sep) == [""] + Split(body, Sep) by {
      assert IndexOf(c, Sep) == 0;
      assert c[1..] == body;
    }
    assert ReduceFrom([], [""] + Split(body, Sep), true) == ReduceFrom([], Split(body, Sep), true) by {
      assert ([""] + Split(body, Sep))[1..] == Split(body, Sep);
    }
    if stack == [] {
      assert Split(body, Sep) == [""];
      assert [""][1..] == [];
    } else {
      SegmentsHaveNoSep(stack, true);
      SplitJoin(stack, Sep);
      ReduceFromReducedIsAppend([], stack, true);
      assert [] + stack == stack;
    }
  }

  lemma CleanRootedFixed(stack: seq<string>)
    requires Reduced(stack, true)
    ensures Clean([Sep] + JoinWith(stack, [Sep])) == [Sep] + JoinWith(stack, [Sep])
  {
    var c := [Sep] + JoinWith(stack, [Sep]);
    assert c != "" && c[0] == Sep;
    RootedJoinReduces(stack);
  }

  lemma CleanRelativeFixed(stack: seq<string>)
    requires Reduced(stack, false) && stack != []
    ensures Clean(JoinWith(stack, [Sep])) == JoinWith(stack, [Sep])
  {
    var body := JoinWith(stack, [Sep]);
    SegmentsHaveNoSep(stack, false);
    SplitJoin(stack, Sep);
    ReduceFromReducedIsAppend([], stack, false);
    assert [] + stack == stack;
    JoinWithFirst(stack, Sep);
    assert stack[0][0] in stack[0];
    assert body[0] != Sep;
  }

  lemma CleanDotFixed()
    ensures Clean(".") == "."
  {
    assert IndexOf(".", Sep) == -1;
    assert Split(".", Sep) == ["."];
    assert ["."][1..] == [];
    assert ReduceFrom([], ["."], false) == ReduceFrom([], [], false) == [];
  }

  /** `filepath.Clean` is idempotent: a cleaned path is its own clean form. */
  lemma {:induction false} CleanIdempotent(p: string)
    ensures Clean(Clean(p)) == Clean(p)
  {
    if p == "" {
      CleanDotFixed();
    } else {
      var rooted := p[0] == Sep;
      var stack := ReduceFrom([], Split(p, Sep), rooted);
      ReduceFromReduced([], Split(p, Sep), rooted);
      if rooted {
        CleanRootedFixed(stack);
      } else if stack == [] {
        CleanDotFixed();
      } else {
        CleanRelativeFixed(stack);
      }
    }
  }

  /** `filepath.Join(a, b)`: the non-empty elements joined with '/' and cleaned; "" when both
      are empty. */
  function Join(a: string, b: string): (r: string)
    ensures a == "" && b == "" ==> r == ""
    ensures a == "" && b != "" ==> r == Clean(b)
    ensures a != "" ==> r == Clean(a + [Sep] + b)
  {
    if a == "" then (if b == "" then "" else Clean(b)) else Clean(a + [Sep] + b)
  }

  /** `filepath.Dir`: everything up to and including the last separator, cleaned. */
  function Dir(p: string): (r: string)
    ensures r == Clean(p[..LastIndex(p, Sep) + 1])
  {
    Clean(p[..LastIndex(p, Sep) + 1])
  }

  function TrimTrailingSeps(p: string): (r: string)
    ensures HasPrefix(p, r)
    ensures r == "" || r[|r| - 1] != Sep
    ensures forall k :: |r| <= k < |p| ==> p[k] == Sep
  {
    if |p| > 0 && p[|p| - 1] == Sep then TrimTrailingSeps(p[..|p| - 1]) else p
  }

  /** `filepath.Base`: the last element after trailing separators are dropped; "." for the
      empty path and "/" for a path of separators only. */
  function Base(p: string): (r: string)
    ensures r != ""
    ensures r == "/" || Sep !in r
    ensures p == "" ==> r == "."
  {
    if p == "" then "."
    else
      var t := TrimTrailingSeps(p);
      if t == "" then [Sep] else t[LastIndex(t, Sep) + 1..]
  }

  /** `filepath.Ext`: the suffix of the last element starting at its last '.', or "". */
  function Ext(p: string): (r: string)
    ensures r == "" || (HasSuffix(p, r) && r[0] == '.' && Sep !in r && '.' !in r[1..])
    ensures r == "" ==> forall k :: LastIndex(p, Sep) < k < |p| ==> p[k] != '.'
  {
    var d := LastIndex(p, '.');
    if d > LastIndex(p, Sep) then p[d..] else ""
  }
}
