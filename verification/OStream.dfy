/** Output streams and the recursive writer. */
module OStream {
  import opened Wire
  import Varint
  import opened Descriptor
  import opened EncodeSpec

  /**
    * pb_ostream_t over a memory buffer. A sizing stream has no callback: it counts bytes and never
    * touches its buffer. `at` is the write position kept in `state`.
    */
  class Stream {
    const sizing: bool
    const buf: array<byte>
    const maxSize: nat
    var at: nat
    var bytesWritten: nat
    var errmsg: Option<Error>

    /** The bytes still allowed by maxSize lie inside the buffer. */
    ghost predicate Valid()
      reads this
    {
      !sizing ==> bytesWritten <= maxSize && at + (maxSize - bytesWritten) <= buf.Length
    }

    constructor FromBuffer(buffer: array<byte>)
      ensures Valid() && !sizing && buf == buffer && maxSize == buffer.Length
      ensures at == 0 && bytesWritten == 0 && errmsg == None
    {
      sizing, buf, maxSize := false, buffer, buffer.Length;
      at, bytesWritten, errmsg := 0, 0, None;
    }

    constructor Sizing()
      ensures Valid() && sizing && fresh(buf)
      ensures at == 0 && bytesWritten == 0 && errmsg == None
    {
      sizing, buf, maxSize := true, new byte[0], 0;
      at, bytesWritten, errmsg := 0, 0, None;
    }

    /** The writing substream of a submessage: same buffer, limited to the size computed before. */
    constructor Limited(parent: Stream, size: nat)
      requires parent.Valid() && !parent.sizing && parent.bytesWritten + size <= parent.maxSize
      ensures Valid() && !sizing && buf == parent.buf && maxSize == size
      ensures at == parent.at && bytesWritten == 0 && errmsg == None
    {
      sizing, buf, maxSize := false, parent.buf, size;
      at, bytesWritten, errmsg := parent.at, 0, None;
    }

    /** Whether that many bytes can be written. */
    predicate Fits(count: nat)
      reads this
    {
      sizing || bytesWritten + count <= maxSize
    }

    /** The observable state: counters, error and everything written to the buffer so far. */
    ghost function View(): State
      requires Valid()
      reads this, buf
    {
      State(sizing, maxSize, bytesWritten, if sizing then [] else buf[..at], errmsg)
    }

    /** PB_SET_ERROR keeps the first message. */
    method SetError(e: Error)
      modifies this`errmsg
      ensures errmsg == if old(errmsg).Some? then old(errmsg) else Some(e)
    {
      errmsg := if errmsg.Some? then errmsg else Some(e);
    }
  }

  datatype State = State(
    sizing: bool, maxSize: nat, bytesWritten: nat, output: seq<byte>, errmsg: Option<Error>)

  /**
    * The effect of a writer that produces `result`: it succeeds exactly if there is a result and room
    * for it; it then counts the bytes and, unless sizing, appends them. Even on failure it keeps what
    * was written before, and it never reports a changed submessage size.
    */
  predicate Wrote(before: State, after: State, result: Result<seq<byte>>, ok: bool) {
    && after.sizing == before.sizing && after.maxSize == before.maxSize
    && ok == (result.Ok? && (before.sizing || before.bytesWritten + |result.value| <= before.maxSize))
    && (after.errmsg == Some(SubmsgSizeChanged) ==> before.errmsg == after.errmsg)
    && (!ok ==> after.errmsg.Some?)
    && before.output <= after.output
    && (ok ==>
          && after.bytesWritten == before.bytesWritten + |result.value|
          && after.output == before.output + if before.sizing then [] else result.value)
  }

  function Prepend(done: seq<byte>, r: Result<seq<byte>>): Result<seq<byte>> {
    if r.Ok? then Ok(done + r.value) else r
  }

  /** Two writers in a row write the concatenation. */
  lemma Chain(a: State, b: State, c: State, done: seq<byte>, r: Result<seq<byte>>, ok: bool)
    requires Wrote(a, b, Ok(done), true) && Wrote(b, c, r, ok)
    ensures Wrote(a, c, Prepend(done, r), ok)
  {
    if ok && !a.sizing {
      assert a.output + done + r.value == a.output + (done + r.value);
    }
  }

  /** A writer that fails half way fails as a whole. */
  lemma Abandon(a: State, c: State, r: Result<seq<byte>>, tail: Result<seq<byte>>)
    requires Wrote(a, c, r, false)
    ensures r.Ok? && tail.Ok? ==> Wrote(a, c, Ok(r.value + tail.value), false)
    ensures r.Ok? && tail.Err? ==> Wrote(a, c, tail, false)
  {
  }

  // ---------- Streams ----------

  method Write(s: Stream, data: seq<byte>) returns (ok: bool)
    requires s.Valid()
    modifies s, s.buf
    ensures s.Valid() && Wrote(old(s.View()), s.View(), Ok(data), ok)
  {
    if !s.sizing {
      if s.bytesWritten + |data| > s.maxSize {
        s.SetError(StreamFull);
        return false;
      }
      BufWrite(s, data);
    }
    s.bytesWritten := s.bytesWritten + |data|;
    return true;
  }

  /** pb_write with no data: a sizing stream only counts. */
  method Count(s: Stream, size: nat)
    requires s.sizing
    modifies s
    ensures s.Valid() && s.View() == old(s.View()).(bytesWritten := old(s.bytesWritten) + size)
  {
    s.bytesWritten := s.bytesWritten + size;
  }

  /** The buffer callback copies byte by byte and moves the write position. */
  method BufWrite(s: Stream, data: seq<byte>)
    requires s.at + |data| <= s.buf.Length
    modifies s`at, s.buf
    ensures s.at == old(s.at) + |data|
    ensures s.buf[..s.at] == old(s.buf[..s.at]) + data
  {
    ghost var before := s.buf[..s.at];
    for i := 0 to |data|
      invariant s.at == old(s.at)
      invariant s.buf[..s.at + i] == before + data[..i]
    {
      s.buf[s.at + i] := data[i];
      assert s.buf[..s.at + i + 1] == s.buf[..s.at + i] + [data[i]];
      assert s.buf[..s.at + i] == before + data[..i];
    }
    s.at := s.at + |data|;
  }

  // ---------- Scalars and tags ----------

  method EncodeVarint(s: Stream, value: nat) returns (ok: bool)
    requires s.Valid() && value < TWO_64
    modifies s, s.buf
    ensures s.Valid() && Wrote(old(s.View()), s.View(), Ok(Varint.Encode(value)), ok)
  {
    var buffer := Varint.EncodeToBuffer(value);
    ok := Write(s, buffer);
  }

  method EncodeTag(s: Stream, wireType: nat, fieldNumber: nat) returns (ok: bool)
    requires s.Valid() && wireType < 8 && fieldNumber <= SIZE_MAX
    modifies s, s.buf
    ensures s.Valid() && Wrote(old(s.View()), s.View(), Ok(Tag(fieldNumber, wireType)), ok)
  {
    ok := EncodeVarint(s, fieldNumber * 8 + wireType);
  }

  method EncodeString(s: Stream, data: seq<byte>) returns (ok: bool)
    requires s.Valid() && |data| < TWO_64
    modifies s, s.buf
    ensures s.Valid() && Wrote(old(s.View()), s.View(), Ok(Prefixed(data)), ok)
  {
    ghost var a := s.View();
    ok := EncodeVarint(s, |data|);
    if !ok {
      Abandon(a, s.View(), Ok(Varint.Encode(|data|)), Ok(data));
      return;
    }
    ghost var b := s.View();
    ok := Write(s, data);
    Chain(a, b, s.View(), Varint.Encode(|data|), Ok(data), ok);
  }
}
