/** The `io.Reader` contract as the modelled loops see it: each call of `Read(buf)` is
    recorded as its count, the bytes it placed at the front of `buf`, and its error. */
module Streams {
  import opened Wrappers

  /** An octet; Go's `byte`. */
  type Byte = b: int | 0 <= b < 256

  type Bytes = seq<Byte>

  const EOF: string := "EOF"

  datatype ReadResult = ReadResult(n: int, data: Bytes, err: Option<string>)

  /** What `io.Reader` promises a caller whose buffer holds `size` bytes: never more than
      the buffer, and a non-negative count is the number of bytes delivered. A negative
      count breaks the contract, but the callers test for it, so it stays representable. */
  predicate Honest(r: ReadResult, size: nat)
  {
    r.n <= size && (r.n >= 0 ==> |r.data| == r.n)
  }

  predicate AllHonest(calls: seq<ReadResult>, size: nat)
  {
    forall i :: 0 <= i < |calls| ==> Honest(calls[i], size)
  }

  /** The result of the i-th call: past the recorded calls, the reader stays at end of file. */
  function ReadAt(calls: seq<ReadResult>, i: nat): (r: ReadResult)
    ensures i >= |calls| ==> r.n == 0
  {
    if i < |calls| then calls[i] else ReadResult(0, [], Some(EOF))
  }

  function Concat(chunks: seq<Bytes>): (r: Bytes)
    ensures chunks == [] ==> r == []
  {
    if chunks == [] then [] else Concat(chunks[..|chunks| - 1]) + chunks[|chunks| - 1]
  }

  /** The bytes delivered by a run of calls. */
  function Payload(calls: seq<ReadResult>): Bytes
  {
    if calls == [] then [] else Payload(calls[..|calls| - 1]) + calls[|calls| - 1].data
  }

  lemma PayloadSnoc(calls: seq<ReadResult>, r: ReadResult)
    ensures Payload(calls + [r]) == Payload(calls) + r.data
  {
    assert (calls + [r])[..|calls|] == calls;
  }

  /** The calls a `bytes.Reader` over `bs` answers when read into a `size`-byte buffer:
      full buffers, then the remainder; every later call reports end of file. */
  function BytesReader(bs: Bytes, size: nat): (calls: seq<ReadResult>)
    requires size > 0
    decreases |bs|
  {
    if bs == [] then []
    else if |bs| <= size then [ReadResult(|bs|, bs, None)]
    else [ReadResult(size, bs[..size], None)] + BytesReader(bs[size..], size)
  }

  lemma {:induction false} PayloadCons(r: ReadResult, rest: seq<ReadResult>)
    ensures Payload([r] + rest) == r.data + Payload(rest)
    decreases |rest|
  {
    if rest == [] {
      assert [r] + rest == [r];
      assert [r][..0] == [];
    } else {
      var last := rest[|rest| - 1];
      var init := rest[..|rest| - 1];
      assert [r] + rest == ([r] + init) + [last];
      assert rest == init + [last];
      PayloadSnoc([r] + init, last);
      PayloadSnoc(init, last);
      PayloadCons(r, init);
    }
  }

  /** Every call a `bytes.Reader` answers before end of file honours the reader contract
      and delivers a positive count. */
  lemma {:induction false} BytesReaderHonest(bs: Bytes, size: nat)
    requires size > 0
    ensures forall i :: 0 <= i < |BytesReader(bs, size)| ==>
      Honest(BytesReader(bs, size)[i], size) && BytesReader(bs, size)[i].n > 0
    decreases |bs|
  {
    if |bs| > size {
      var head, rest := ReadResult(size, bs[..size], None), BytesReader(bs[size..], size);
      assert BytesReader(bs, size) == [head] + rest;
      BytesReaderHonest(bs[size..], size);
    }
  }

  /** The calls of a `bytes.Reader` deliver exactly its bytes, in order. */
  lemma {:induction false} BytesReaderPayload(bs: Bytes, size: nat)
    requires size > 0
    ensures Payload(BytesReader(bs, size)) == bs
    decreases |bs|
  {
    if bs == [] {
    } else if |bs| <= size {
      assert Payload([ReadResult(|bs|, bs, None)]) == Payload([]) + bs;
    } else {
      var head, rest := ReadResult(size, bs[..size], None), BytesReader(bs[size..], size);
      assert BytesReader(bs, size) == [head] + rest;
      BytesReaderPayload(bs[size..], size);
      PayloadCons(head, rest);
      assert bs[..size] + bs[size..] == bs;
    }
  }

  /** A `bytes.Reader` honours the reader contract, delivers a positive count on every call
      before end of file, and delivers exactly its bytes, in order. */
  lemma BytesReaderDelivers(bs: Bytes, size: nat)
    requires size > 0
    ensures AllHonest(BytesReader(bs, size), size)
    ensures forall i :: 0 <= i < |BytesReader(bs, size)| ==> BytesReader(bs, size)[i].n > 0
    ensures Payload(BytesReader(bs, size)) == bs
  {
    BytesReaderHonest(bs, size);
    BytesReaderPayload(bs, size);
  }

  /** A `bytes.Reader` answers at most one call before end of file exactly when its data
      fits in one buffer. */
  lemma {:induction false} BytesReaderSingle(bs: Bytes, size: nat)
    requires size > 0
    ensures |BytesReader(bs, size)| <= 1 <==> |bs| <= size
  {
    if |bs| > size {
      assert |BytesReader(bs, size)| == 1 + |BytesReader(bs[size..], size)|;
      assert BytesReader(bs[size..], size) != [];
    }
  }

  /** The effect of a `Read` call on the caller's buffer: the delivered bytes at its front. */
  method FillFront(buf: array<Byte>, data: Bytes)
    requires |data| <= buf.Length
    modifies buf
    ensures buf[..|data|] == data
    ensures buf[|data|..] == old(buf[|data|..])
  {
    forall i | 0 <= i < |data| {
      buf[i] := data[i];
    }
  }
}
