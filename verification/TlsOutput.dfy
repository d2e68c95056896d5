/**
  * Everything a TLS connection sends: handshake flights, application data and alerts, through a
  * transport that may accept any part of what it is given.
  */
module TlsOutput {
  import opened Wire
  import opened SslBuffer

  const MAX_PLAIN_LENGTH: nat := 16384
  const INT_MAX: nat := 0x7FFF_FFFF

  const WARNING: byte := 1
  const FATAL: byte := 2
  const CLOSE_NOTIFY: byte := 0

  datatype ContentType = Handshake | ChangeCipherSpec | AlertRecord | ApplicationData

  datatype Shutdown = ShutdownNone | ShutdownCloseNotify | ShutdownError

  /** One sealed record: its type, its plaintext and the bytes that represent it. */
  datatype Record = Record(contentType: ContentType, plain: seq<byte>, bytes: seq<byte>)

  function RecordBytes(records: seq<Record>): seq<byte> {
    if records == [] then [] else RecordBytes(records[..|records| - 1]) + records[|records| - 1].bytes
  }

  /** The plaintext of the records of one type, in order. */
  function Plain(records: seq<Record>, t: ContentType): seq<byte> {
    if records == [] then []
    else
      var last := records[|records| - 1];
      Plain(records[..|records| - 1], t) + if last.contentType == t then last.plain else []
  }

  lemma AddRecord(records: seq<Record>, r: Record)
    ensures RecordBytes(records + [r]) == RecordBytes(records) + r.bytes
    ensures Plain(records + [r], r.contentType) == Plain(records, r.contentType) + r.plain
    ensures forall t :: t != r.contentType ==> Plain(records + [r], t) == Plain(records, t)
  {
    assert (records + [r])[..|records|] == records;
    forall t | t != r.contentType
      ensures Plain(records + [r], t) == Plain(records, t)
    {
      assert Plain(records + [r], t) == Plain(records, t) + [];
    }
  }

  /**
    * What a connection has produced so far: bytes taken by the transport, bytes in the write
    * buffer, bytes of the pending flight not yet handed over, every record sealed (oldest first),
    * how much application data was acknowledged to the caller, and the progress of an unfinished
    * write call.
    */
  datatype Output = Output(
    wire: seq<byte>, buffered: seq<byte>, tail: seq<byte>, sealed: seq<Record>,
    accepted: nat, wnum: nat, pending: Option<(ContentType, nat)>)

  /** The bytes sent, buffered and pending are the sealed records in sealing order. */
  predicate InOrder(o: Output) {
    o.wire + o.buffered + o.tail == RecordBytes(o.sealed)
  }

  /** Some capacity that was asked for is one whose offset can wrap. */
  ghost predicate Risky(asked: set<nat>) {
    exists cap :: cap in asked && MayWrap(cap)
  }

  lemma RiskyGrows(asked: set<nat>, cap: nat)
    ensures Risky(asked + {cap}) <==> Risky(asked) || MayWrap(cap)
  {
    if Risky(asked) {
      var earlier :| earlier in asked && MayWrap(earlier);
      assert earlier in asked + {cap};
    }
    if MayWrap(cap) {
      assert cap in asked + {cap};
    }
  }

  /** Nothing but capacities up to a limit was asked for in addition. */
  ghost predicate AskedUpTo(before: set<nat>, after: set<nat>, limit: nat) {
    before <= after && forall cap :: cap in after && cap !in before ==> cap <= limit
  }

  lemma AskedNothing(asked: set<nat>, limit: nat)
    ensures AskedUpTo(asked, asked, limit)
  {
  }

  lemma AskedMore(before: set<nat>, now: set<nat>, after: set<nat>, cap: nat, limit: nat)
    requires AskedUpTo(before, now, limit) && (after == now || after == now + {cap}) && cap <= limit
    ensures AskedUpTo(before, after, limit)
  {
  }

  /** Nothing sent or sealed is ever taken back. */
  predicate Grown(before: Output, after: Output) {
    before.wire <= after.wire && before.sealed <= after.sealed
  }

  function AppData(o: Output): seq<byte> {
    Plain(o.sealed, ApplicationData)
  }

  /** A step that seals no application data, acknowledges none and leaves an unfinished write alone. */
  predicate AppUntouched(before: Output, after: Output) {
    && AppData(after) == AppData(before)
    && after.accepted == before.accepted && after.wnum == before.wnum
    && after.pending == before.pending
  }

  /** The application data sealed for the write call that has not succeeded yet. */
  function InProgress(o: Output): seq<byte>
    requires o.accepted <= |AppData(o)|
  {
    AppData(o)[o.accepted..]
  }

  /** The unfinished write call has completed wnum bytes and at most one more record is sealed. */
  predicate WriteState(o: Output) {
    && o.accepted <= |AppData(o)|
    && |InProgress(o)| == o.wnum + if o.pending.Some? && o.pending.value.0 == ApplicationData then o.pending.value.1 else 0
  }

  function AddedToTail(o: Output, r: Record): Output {
    o.(tail := o.tail + r.bytes, sealed := o.sealed + [r])
  }

  /** The pending flight becomes a prefix of the write buffer. */
  function Folded(o: Output): Output {
    o.(buffered := o.buffered + o.tail, tail := [])
  }

  function AddedToBuffer(o: Output, r: Record): Output {
    o.(buffered := o.buffered + r.bytes, sealed := o.sealed + [r], pending := Some((r.contentType, |r.plain|)))
  }

  /** Bytes moved from the buffer, or from the pending flight behind an empty buffer, to the wire. */
  predicate Sent(before: Output, after: Output) {
    && before.wire <= after.wire
    && after.wire + after.buffered + after.tail == before.wire + before.buffered + before.tail
    && after == before.(wire := after.wire, buffered := after.buffered, tail := after.tail)
  }

  lemma TailKeeps(o: Output, r: Record)
    ensures InOrder(o) ==> InOrder(AddedToTail(o, r))
    ensures Grown(o, AddedToTail(o, r))
    ensures r.contentType != ApplicationData ==> AppUntouched(o, AddedToTail(o, r))
  {
    AddRecord(o.sealed, r);
    assert o.wire + o.buffered + (o.tail + r.bytes) == (o.wire + o.buffered + o.tail) + r.bytes;
  }

  lemma FoldKeeps(o: Output)
    ensures InOrder(o) ==> InOrder(Folded(o))
    ensures Grown(o, Folded(o)) && AppUntouched(o, Folded(o))
  {
    assert o.wire + (o.buffered + o.tail) + [] == o.wire + o.buffered + o.tail;
  }

  lemma BufferKeeps(o: Output, r: Record)
    requires o.tail == []
    ensures InOrder(o) ==> InOrder(AddedToBuffer(o, r))
    ensures Grown(o, AddedToBuffer(o, r))
  {
    AddRecord(o.sealed, r);
    assert o.wire + (o.buffered + r.bytes) + [] == (o.wire + o.buffered + []) + r.bytes;
  }

  /**
    * The outcome of writing one record. A positive result says that one record of that type is
    * completely on the wire; after any other result either nothing was sealed, or the sealed record
    * waits to be retried.
    */
  ghost predicate Wrote(before: Output, after: Output, t: ContentType, data: seq<byte>, ret: int) {
    && after.wnum == before.wnum && after.accepted == before.accepted
    && match before.pending
       case Some(p) =>
         && after.sealed == before.sealed
         && (ret > 0 ==> after.pending.None? && ret == p.1 <= |data| && p.0 == t)
         && (ret <= 0 ==> after.pending == before.pending)
       case None =>
         && (after.sealed != before.sealed ==> SealedOne(before, after, t, data))
         && (ret > 0 ==> SealedOne(before, after, t, data) && after.pending.None? && ret == |data|)
         && (ret <= 0 ==> after.pending == if after.sealed == before.sealed then None else Some((t, |data|)))
  }

  ghost predicate SealedOne(before: Output, after: Output, t: ContentType, data: seq<byte>) {
    exists bytes :: after.sealed == before.sealed + [Record(t, data, bytes)]
  }

  /** The first `sent` bytes of a message are in handshake records at the end of the flight. */
  predicate MessagePart(before: Output, after: Output, msg: seq<byte>, sent: nat)
    requires sent <= |msg|
  {
    && Grown(before, after) && AppUntouched(before, after)
    && Plain(after.sealed, Handshake) == Plain(before.sealed, Handshake) + msg[..sent]
  }

  /** The new records are as long as they may be, except that the last one takes what is left. */
  predicate InChunks(before: seq<Record>, after: seq<Record>, len: nat, max: nat) {
    && before <= after
    && forall i :: |before| <= i < |after| ==>
       && |after[i].plain| <= max && (i < |after| - 1 ==> |after[i].plain| == max) && (len > 0 ==> |after[i].plain| > 0)
  }

  predicate FullChunks(before: seq<Record>, now: seq<Record>, max: nat) {
    before <= now && forall i :: |before| <= i < |now| ==> |now[i].plain| == max
  }

  lemma NextChunk(before: seq<Record>, now: seq<Record>, r: Record, len: nat, max: nat)
    requires FullChunks(before, now, max) && max > 0 && |r.plain| <= max && (len > 0 ==> |r.plain| > 0)
    ensures InChunks(before, now, len, max) && InChunks(before, now + [r], len, max)
    ensures |r.plain| == max ==> FullChunks(before, now + [r], max)
  {
  }

  /** The whole message was added, or a part of it and an error reported. */
  predicate AddedHandshake(before: Output, after: Output, msg: seq<byte>, ok: bool) {
    && (ok ==> MessagePart(before, after, msg, |msg|))
    && exists sent | 0 <= sent <= |msg| :: MessagePart(before, after, msg, sent)
  }

  lemma MessageStart(o: Output, msg: seq<byte>)
    ensures MessagePart(o, o, msg, 0)
    ensures forall max :: FullChunks(o.sealed, o.sealed, max)
  {
  }

  lemma MessagePartAdded(start: Output, now: Output, msg: seq<byte>, sent: nat, ok: bool)
    requires sent <= |msg| && MessagePart(start, now, msg, sent) && (ok ==> sent == |msg|)
    ensures AddedHandshake(start, now, msg, ok)
  {
  }

  lemma MessageStep(start: Output, now: Output, msg: seq<byte>, sent: nat, size: nat, record: seq<byte>)
    requires sent + size <= |msg| && MessagePart(start, now, msg, sent)
    ensures MessagePart(start, AddedToTail(now, Record(Handshake, msg[sent..sent + size], record)), msg, sent + size)
  {
    AddRecord(now.sealed, Record(Handshake, msg[sent..sent + size], record));
    assert msg[..sent] + msg[sent..sent + size] == msg[..sent + size];
  }

  /** The transport below: it takes a prefix of the data, or nothing. */
  class Transport {
    var wire: seq<byte>
    /** How many writes failed, and how many flushes were made and failed. */
    ghost var refused: nat
    ghost var flushes: nat
    ghost var unflushed: nat

    constructor ()
      ensures wire == [] && refused == 0 && flushes == 0 && unflushed == 0
    {
      wire, refused, flushes, unflushed := [], 0, 0, 0;
    }

    method Write(data: seq<byte>) returns (ret: int)
      modifies this`wire, this`refused
      ensures ret <= |data|
      ensures wire == if ret > 0 then old(wire) + data[..ret] else old(wire)
      ensures refused == old(refused) + if ret > 0 then 0 else 1
    {
      ret := *;
      if ret > |data| {
        ret := |data|;
      }
      if ret > 0 {
        wire := wire + data[..ret];
      } else {
        refused := refused + 1;
      }
    }

    method Flush() returns (ret: int)
      modifies this`flushes, this`unflushed
      ensures flushes == old(flushes) + 1 && unflushed == old(unflushed) + if ret > 0 then 0 else 1
    {
      ret := *;
      flushes := flushes + 1;
      if ret <= 0 {
        unflushed := unflushed + 1;
      }
    }
  }

  /** The wire only grew, and with what remains it is still everything there was to send. */
  predicate Delivered(wire: seq<byte>, rest: seq<byte>, wireAfter: seq<byte>, restAfter: seq<byte>) {
    wire <= wireAfter && wireAfter + restAfter == wire + rest
  }

  lemma DeliveredNone(wire: seq<byte>, rest: seq<byte>)
    ensures Delivered(wire, rest, wire, rest)
  {
  }

  lemma DeliveredMore(wire: seq<byte>, rest: seq<byte>, wireNow: seq<byte>, restNow: seq<byte>, k: nat)
    requires Delivered(wire, rest, wireNow, restNow) && k <= |restNow|
    ensures Delivered(wire, rest, wireNow + restNow[..k], restNow[k..])
  {
    assert restNow[..k] + restNow[k..] == restNow;
    assert wireNow + restNow[..k] + restNow[k..] == wireNow + restNow;
  }

  /**
    * A partial write of the buffer's contents keeps the order, for every alignment and amount of
    * data, exactly if its capacity is one whose offset cannot wrap.
    */
  lemma PartialWriteInOrder(cap: nat)
    requires cap < U16
    ensures (forall memory: seq<byte>, offset: nat, size: nat, k: nat
               | offset < ALIGN_PAYLOAD && k <= size <= cap && |memory| == cap + ALIGN_PAYLOAD - 1 ::
               Delivered([], memory[offset..offset + size], memory[offset..offset + size][..k], Left(memory, offset, size, k)))
      <==> !MayWrap(cap)
  {
    hide Left;
    SafeCapacity(cap);
    forall memory: seq<byte>, offset: nat, size: nat, k: nat
      | offset < ALIGN_PAYLOAD && k <= size <= cap && |memory| == cap + ALIGN_PAYLOAD - 1
      ensures Delivered([], memory[offset..offset + size], memory[offset..offset + size][..k], Left(memory, offset, size, k))
        <==> Left(memory, offset, size, k) == memory[offset..offset + size][k..]
    {
      PrefixAndRest(memory[offset..offset + size], k, Left(memory, offset, size, k));
    }
  }

  lemma PrefixAndRest(s: seq<byte>, k: nat, rest: seq<byte>)
    requires k <= |s|
    ensures Delivered([], s, s[..k], rest) <==> rest == s[k..]
  {
    assert [] + s == s && s[..k] + s[k..] == s;
    if s[..k] + rest == s {
      assert rest == (s[..k] + rest)[k..];
    }
  }

  /** tls_write_buffer_flush: what leaves the buffer is what enters the transport. */
  method FlushBuffer(transport: Transport, buffer: Buffer) returns (ret: int)
    requires buffer.Valid()
    modifies transport`wire, transport`refused, buffer
    ensures buffer.Valid() && old(transport.wire) <= transport.wire
    ensures old(buffer.Sound()) ==>
      buffer.Sound() && Delivered(old(transport.wire), old(buffer.Contents()), transport.wire, buffer.Contents())
    ensures ret > 0 ==> ret == 1 && buffer.size == 0
    ensures old(buffer.size) == 0 ==> ret == 1
    ensures ret > 0 <==> transport.refused == old(transport.refused)
    ensures buffer.buf == old(buffer.buf) || buffer.buf == null
  {
    hide Delivered;
    ghost var wire, contents := transport.wire, buffer.Contents();
    DeliveredNone(wire, contents);
    while buffer.size > 0
      invariant buffer.Valid() && buffer.buf == old(buffer.buf) && buffer.size <= old(buffer.size)
      invariant wire <= transport.wire && transport.refused == old(transport.refused)
      invariant old(buffer.Sound()) ==> buffer.Sound() && Delivered(wire, contents, transport.wire, buffer.Contents())
      decreases buffer.size
    {
      ghost var wireNow, contentsNow, soundNow := transport.wire, buffer.Contents(), buffer.Sound();
      ret := transport.Write(buffer.buf[buffer.offset..buffer.offset + buffer.size]);
      if ret <= 0 {
        return ret;
      }
      buffer.Consume(ret);
      if soundNow && old(buffer.Sound()) {
        DeliveredMore(wire, contents, wireNow, contentsNow, ret);
      }
    }
    buffer.Clear();
    return 1;
  }

  class Connection {
    const transport: Transport
    const writeBuffer: Buffer
    const maxOverhead: nat
    const maxSendFragment: nat
    const movingBuffer: bool
    const partialWrite: bool
    const alertAddress: nat
    const cipher: Cipher

    var pendingFlight: Option<seq<byte>>
    var pendingOffset: nat
    var wnum: nat
    var wpendPending: bool
    var wpendTot: nat
    var wpendBuf: nat
    var wpendType: ContentType
    var wpendRet: nat
    var writeShutdown: Shutdown
    var alertDispatch: bool
    var sendAlert: (byte, byte)

    ghost var sealed: seq<Record>
    ghost var accepted: nat
    /** How many records the cipher was given, and how many of them it failed on. */
    var tries: nat
    ghost var faults: nat
    /** Every capacity that the write buffer was asked for. */
    ghost var asked: set<nat>

    predicate Structure()
      reads this`pendingFlight, this`pendingOffset, this`wpendPending, this`wpendTot, this`wpendRet, writeBuffer
    {
      && writeBuffer.Valid()
      && pendingOffset <= (if pendingFlight.Some? then |pendingFlight.value| else 0)
      && 0 < maxSendFragment <= MAX_PLAIN_LENGTH && maxSendFragment + maxOverhead <= MAX_SAFE_CAP
      && (wpendPending ==> wpendRet == wpendTot > 0)
    }

    /** The part of the pending flight that was not yet handed to the transport. */
    function Tail(): seq<byte>
      requires Structure()
      reads this`pendingFlight, this`pendingOffset, this`wpendPending, this`wpendTot, this`wpendRet, writeBuffer
    {
      if pendingFlight.Some? then pendingFlight.value[pendingOffset..] else []
    }

    ghost function Now(): Output
      requires Structure()
      reads this, transport, writeBuffer, writeBuffer.buf
    {
      Output(transport.wire, writeBuffer.Contents(), Tail(), sealed, accepted, wnum,
             if wpendPending then Some((wpendType, wpendTot)) else None)
    }

    ghost predicate Valid()
      reads this, transport, writeBuffer, writeBuffer.buf
    {
      Structure() && (Risky(asked) || (writeBuffer.Sound() && InOrder(Now())))
    }

    constructor (maxOverhead: nat, maxSendFragment: nat, movingBuffer: bool, partialWrite: bool, alertAddress: nat,
                 cipher: Cipher)
      requires 0 < maxSendFragment <= MAX_PLAIN_LENGTH && maxSendFragment + maxOverhead <= MAX_SAFE_CAP
      ensures Valid() && WriteState(Now()) && fresh(transport) && fresh(writeBuffer) && writeBuffer.buf == null
      ensures sealed == [] && accepted == 0 && asked == {} && writeShutdown == ShutdownNone && tries == 0 && faults == 0
    {
      transport := new Transport();
      writeBuffer := new Buffer();
      this.maxOverhead, this.maxSendFragment := maxOverhead, maxSendFragment;
      this.movingBuffer, this.partialWrite := movingBuffer, partialWrite;
      this.alertAddress, this.cipher := alertAddress, cipher;
      pendingFlight, pendingOffset, wnum := None, 0, 0;
      wpendPending, wpendTot, wpendBuf, wpendType, wpendRet := false, 0, 0, Handshake, 0;
      writeShutdown, alertDispatch, sendAlert := ShutdownNone, false, (0, 0);
      sealed, accepted, asked, tries, faults := [], 0, {}, 0, 0;
    }

    /** tls_seal_record: what the cipher makes of the plaintext, within the length bound, or an error. */
    method SealRecord(contentType: ContentType, maxOut: nat, plain: seq<byte>) returns (ok: bool, record: seq<byte>)
      requires maxOut >= |plain| + maxOverhead
      modifies this`sealed, this`tries, this`faults
      ensures var made := cipher(old(tries), plain);
        && (ok <==> made.Some? && |made.value| <= |plain| + maxOverhead)
        && (ok ==> record == made.value)
      ensures tries == old(tries) + 1 && faults == old(faults) + if ok then 0 else 1
      ensures sealed == if ok then old(sealed) + [Record(contentType, plain, record)] else old(sealed)
    {
      var made := cipher(tries, plain);
      tries := tries + 1;
      if made.None? || |made.value| > |plain| + maxOverhead {
        faults := faults + 1;
        return false, [];
      }
      sealed := sealed + [Record(contentType, plain, made.value)];
      return true, made.value;
    }

    // ---------- Handshake flights ----------

    /** add_record_to_flight; never called while a flight is being written out. */
    method AddRecordToFlight(contentType: ContentType, plain: seq<byte>) returns (ok: bool, ghost record: seq<byte>)
      requires Structure() && pendingOffset == 0
      modifies this`pendingFlight, this`sealed, this`tries, this`faults
      ensures Structure() && pendingOffset == 0
      ensures Now() == if ok then AddedToTail(old(Now()), Record(contentType, plain, record)) else old(Now())
      ensures ok <==> faults == old(faults)
    {
      if pendingFlight.None? {
        pendingFlight := Some([]);
      }
      var bytes;
      ok, bytes := SealRecord(contentType, |plain| + maxOverhead, plain);
      record := bytes;
      if !ok {
        return;
      }
      pendingFlight := Some(pendingFlight.value + bytes);
    }

    /** ssl3_add_message splits a message into records of at most maxSendFragment bytes. */
    method AddMessage(msg: seq<byte>) returns (ok: bool)
      requires Valid() && pendingOffset == 0
      modifies this`pendingFlight, this`sealed, this`tries, this`faults
      ensures Valid() && pendingOffset == 0
      ensures AddedHandshake(old(Now()), Now(), msg, ok) && InChunks(old(sealed), sealed, |msg|, maxSendFragment)
      ensures ok <==> faults == old(faults)
    {
      hide Plain, RecordBytes, InOrder, Grown, AppUntouched, FullChunks, InChunks, MessagePart, AddedHandshake;
      var rest := msg;
      ghost var start := Now();
      ghost var sent := 0;
      MessageStart(start, msg);
      while true
        invariant Valid() && pendingOffset == 0
        invariant 0 <= sent <= |msg| && rest == msg[sent..] && MessagePart(start, Now(), msg, sent)
        invariant faults == old(faults) && (|msg| > 0 ==> |rest| > 0)
        invariant FullChunks(old(sealed), sealed, maxSendFragment)
        decreases |rest|
      {
        var size := if |rest| < maxSendFragment then |rest| else maxSendFragment;
        var chunk := rest[..size];
        rest := rest[size..];
        assert chunk == msg[sent..sent + size] && rest == msg[sent + size..];
        ghost var before, record := Now(), [];
        ok, record := AddRecordToFlight(Handshake, chunk);
        NextChunk(old(sealed), before.sealed, Record(Handshake, chunk, record), |msg|, maxSendFragment);
        if !ok {
          MessagePartAdded(start, before, msg, sent, false);
          return;
        }
        TailKeeps(before, Record(Handshake, chunk, record));
        MessageStep(start, before, msg, sent, size, record);
        sent := sent + size;
        if |rest| == 0 {
          MessagePartAdded(start, Now(), msg, sent, true);
          return;
        }
      }
    }

    /** ssl3_add_change_cipher_spec and ssl3_add_alert: one record in the flight. */
    method AddSmallRecord(contentType: ContentType, plain: seq<byte>) returns (ok: bool)
      requires Valid() && pendingOffset == 0 && contentType != ApplicationData
      modifies this`pendingFlight, this`sealed, this`tries, this`faults
      ensures Valid() && pendingOffset == 0
      ensures Grown(old(Now()), Now()) && AppUntouched(old(Now()), Now())
      ensures if ok then SealedOne(old(Now()), Now(), contentType, plain) else sealed == old(sealed)
      ensures ok <==> faults == old(faults)
    {
      hide Plain, RecordBytes, InOrder;
      ghost var record;
      ok, record := AddRecordToFlight(contentType, plain);
      if ok {
        TailKeeps(old(Now()), Record(contentType, plain, record));
      }
    }

    /** The part of ssl3_flush_flight that starts when the write buffer is empty. */
    method WriteFlight() returns (ret: int)
      requires Structure() && pendingFlight.Some?
      modifies this`pendingFlight, this`pendingOffset, transport
      ensures Structure() && Delivered(old(transport.wire), old(Tail()), transport.wire, Tail())
      ensures ret > 0 ==> pendingFlight.None? && transport.flushes == old(transport.flushes) + 1
      ensures ret > 0 <==> transport.refused == old(transport.refused) && transport.unflushed == old(transport.unflushed)
    {
      hide Delivered;
      ghost var wire, tail := transport.wire, Tail();
      DeliveredNone(wire, tail);
      while pendingOffset < |pendingFlight.value|
        invariant Structure() && pendingFlight == old(pendingFlight)
        invariant Delivered(wire, tail, transport.wire, Tail())
        invariant transport.refused == old(transport.refused)
        invariant transport.flushes == old(transport.flushes) && transport.unflushed == old(transport.unflushed)
        decreases |pendingFlight.value| - pendingOffset
      {
        ghost var wireNow, tailNow := transport.wire, Tail();
        ret := transport.Write(pendingFlight.value[pendingOffset..]);
        if ret <= 0 {
          return;
        }
        assert tailNow[ret..] == pendingFlight.value[pendingOffset + ret..];
        pendingOffset := pendingOffset + ret;
        DeliveredMore(wire, tail, wireNow, tailNow, ret);
      }
      assert Tail() == [];
      var flushed := transport.Flush();
      if flushed <= 0 {
        return -1;
      }
      pendingFlight, pendingOffset := None, 0;
      return 1;
    }

    /** ssl3_flush_flight: the write buffer goes out before the pending flight. */
    method FlushFlight() returns (ret: int)
      requires Valid()
      modifies this`pendingFlight, this`pendingOffset, transport, writeBuffer
      ensures Valid() && Grown(old(Now()), Now()) && AppUntouched(old(Now()), Now())
      ensures !Risky(asked) ==> Sent(old(Now()), Now())
      ensures writeBuffer.buf == old(writeBuffer.buf) || writeBuffer.buf == null
      ensures ret > 0 && old(pendingFlight.Some?) ==> pendingFlight.None? && (!Risky(asked) ==> transport.wire == RecordBytes(sealed))
      ensures ret > 0 <==>
        && old(pendingFlight.None? || (writeShutdown == ShutdownNone && |pendingFlight.value| <= INT_MAX))
        && transport.refused == old(transport.refused) && transport.unflushed == old(transport.unflushed)
    {
      hide Plain, RecordBytes, InOrder, Sent, Grown, AppUntouched, Delivered, Risky;
      ghost var before := Now();
      NothingSent(before);
      if pendingFlight.None? {
        return 1;
      }
      if writeShutdown != ShutdownNone {
        return -1;
      }
      if |pendingFlight.value| > INT_MAX {
        return -1;
      }
      if writeBuffer.size > 0 {
        ret := FlushBuffer(transport, writeBuffer);
        BufferSent(before, Now());
        if ret <= 0 {
          return ret;
        }
      }
      ghost var middle := Now();
      ret := WriteFlight();
      FlightSent(before, middle, Now());
      if ret > 0 && !Risky(asked) {
        AllSent(Now());
      }
    }

    // ---------- Records written through the buffer ----------

    /** A retry that is shorter than the waiting record, moved without permission, or of another type. */
    predicate BadRetry(contentType: ContentType, data: seq<byte>, address: nat)
      reads this`wpendTot, this`wpendBuf, this`wpendType
    {
      wpendTot > |data| || (!movingBuffer && wpendBuf != address) || wpendType != contentType
    }

    /** ssl3_write_pending */
    method WritePending(contentType: ContentType, data: seq<byte>, address: nat) returns (ret: int)
      requires Valid() && wpendPending
      modifies this`wpendPending, transport`wire, transport`refused, writeBuffer
      ensures Valid() && Grown(old(Now()), Now())
      ensures writeBuffer.buf == old(writeBuffer.buf) || writeBuffer.buf == null
      ensures Wrote(old(Now()), Now(), contentType, data, ret)
      ensures ret > 0 ==> writeBuffer.size == 0 && !wpendPending
      ensures old(BadRetry(contentType, data, address)) ==> ret == -1 && Now() == old(Now())
      ensures ret > 0 <==> !old(BadRetry(contentType, data, address)) && transport.refused == old(transport.refused)
      ensures old(wpendType) == contentType && old(wpendTot) <= |data| && (movingBuffer || old(wpendBuf) == address)
        <==> !old(BadRetry(contentType, data, address))
      ensures !old(BadRetry(contentType, data, address)) && old(writeBuffer.size) == 0 ==> ret == old(wpendRet)
      ensures sealed == old(sealed) && Tail() == old(Tail())
    {
      hide Plain, RecordBytes, InOrder, Sent, Grown, AppUntouched, Delivered;
      ghost var before := Now();
      NothingSent(before);
      if BadRetry(contentType, data, address) {
        return -1;
      }
      ret := FlushBuffer(transport, writeBuffer);
      BufferSent(before, Now());
      if ret <= 0 {
        return;
      }
      wpendPending := false;
      PendingIrrelevant(before, before.(wire := transport.wire, buffered := writeBuffer.Contents()), Now());
      return wpendRet;
    }

    /** The write buffer gets room for a record, behind whatever is left of the pending flight. */
    method PrepareBuffer(len: nat, align: nat) returns (ok: bool)
      requires Valid() && writeBuffer.size == 0
      modifies this`pendingFlight, this`pendingOffset, this`asked, writeBuffer, BufferMemory()
      ensures Valid() && FreshMemory()
      ensures asked == old(asked) + {len + maxOverhead + |old(Tail())|}
      ensures Now() == if ok then Folded(old(Now())) else old(Now())
      ensures ok ==> writeBuffer.cap - writeBuffer.size >= len + maxOverhead
      ensures ok <==> len + maxOverhead + |old(Tail())| < U16
    {
      hide Plain, RecordBytes, InOrder, Risky, MayWrap, Grown, AppUntouched;
      ghost var before := Now();
      var flightLen := if pendingFlight.Some? then |pendingFlight.value| - pendingOffset else 0;
      ok := MakeRoom(flightLen, len + maxOverhead + flightLen, align);
      if !ok {
        return;
      }
      FoldKeeps(before);
      FoldFlight();
    }

    /** The write buffer is asked for a capacity. */
    method MakeRoom(headerLen: nat, capacity: nat, align: nat) returns (ok: bool)
      requires Valid()
      modifies this`asked, writeBuffer
      ensures Valid() && Now() == old(Now()) && writeBuffer.size == old(writeBuffer.size)
      ensures asked == old(asked) + {capacity}
      ensures (ok <==> capacity < U16) && (ok ==> capacity <= writeBuffer.cap)
      ensures writeBuffer.buf == old(writeBuffer.buf) || fresh(writeBuffer.buf)
    {
      hide Plain, RecordBytes, InOrder, Risky, MayWrap;
      ok := writeBuffer.EnsureCap(headerLen, capacity, align);
      RiskyGrows(asked, capacity);
      asked := asked + {capacity};
    }

    /** The rest of the flight is copied behind the contents of the buffer, which has room for it. */
    method FoldFlight()
      requires Structure() && |Tail()| <= writeBuffer.cap - writeBuffer.size
      modifies this`pendingFlight, this`pendingOffset, writeBuffer`size, BufferMemory()
      ensures Structure() && Now() == Folded(old(Now()))
      ensures writeBuffer.cap - writeBuffer.size == old(writeBuffer.cap - writeBuffer.size) - |old(Tail())|
    {
      hide Plain, RecordBytes, InOrder, Risky;
      if pendingFlight.Some? {
        writeBuffer.Append(pendingFlight.value[pendingOffset..]);
        pendingFlight, pendingOffset := None, 0;
      }
    }

    ghost function BufferMemory(): set<object>
      reads writeBuffer
    {
      if writeBuffer.buf == null then {} else {writeBuffer.buf}
    }

    twostate predicate FreshMemory()
      reads writeBuffer
    {
      writeBuffer.buf == null || writeBuffer.buf == old(writeBuffer.buf) || fresh(writeBuffer.buf)
    }

    /** Seals one record into the write buffer and memorizes the arguments for the retry. */
    method SealIntoBuffer(contentType: ContentType, data: seq<byte>, address: nat) returns (ok: bool, ghost record: seq<byte>)
      requires Structure() && !wpendPending && 0 < |data| && writeBuffer.cap - writeBuffer.size >= |data| + maxOverhead
      modifies this`sealed, this`tries, this`faults, this`wpendPending, this`wpendTot, this`wpendBuf, this`wpendType, this`wpendRet
      modifies writeBuffer`size, BufferMemory()
      ensures Structure()
      ensures Now() == if ok then AddedToBuffer(old(Now()), Record(contentType, data, record)) else old(Now())
      ensures (ok <==> faults == old(faults)) && (ok ==> !BadRetry(contentType, data, address))
    {
      hide Plain, RecordBytes, InOrder, Risky, Grown, BadRetry;
      var bytes;
      ok, bytes := SealRecord(contentType, writeBuffer.cap - writeBuffer.size, data);
      record := bytes;
      if !ok {
        return;
      }
      AppendBytes(bytes);
      Memorize(contentType, data, address);
    }

    /** Memorizes the arguments so that a bad retry can be detected. */
    method Memorize(contentType: ContentType, data: seq<byte>, address: nat)
      requires Structure() && 0 < |data|
      modifies this`wpendPending, this`wpendTot, this`wpendBuf, this`wpendType, this`wpendRet
      ensures Structure() && !BadRetry(contentType, data, address)
      ensures Now() == old(Now()).(pending := Some((contentType, |data|)))
    {
      wpendTot, wpendBuf, wpendType, wpendRet := |data|, address, contentType, |data|;
      wpendPending := true;
    }

    /** Copies behind the contents of the buffer. */
    method AppendBytes(bytes: seq<byte>)
      requires Structure() && |bytes| <= writeBuffer.cap - writeBuffer.size
      modifies writeBuffer`size, BufferMemory()
      ensures Structure() && Now() == old(Now()).(buffered := old(Now().buffered) + bytes)
    {
      writeBuffer.Append(bytes);
    }

    /**
      * Writes that fail without asking cipher or transport: a bad retry, no data or too much, a buffer that
      * still holds a flight, a capacity beyond 16 bits.
      */
    predicate Refuses(contentType: ContentType, data: seq<byte>, address: nat)
      requires Structure()
      reads this`pendingFlight, this`pendingOffset, this`wpendPending, this`wpendTot, this`wpendBuf, this`wpendType, this`wpendRet, writeBuffer
    {
      if wpendPending then BadRetry(contentType, data, address)
      else data == [] || |data| > MAX_PLAIN_LENGTH || writeBuffer.size > 0 || |data| + maxOverhead + |Tail()| >= U16
    }

    /** do_ssl3_write; `align` stands for where memory is allocated. */
    method DoWrite(contentType: ContentType, data: seq<byte>, address: nat, align: nat) returns (ret: int)
      requires Valid()
      modifies this`pendingFlight, this`pendingOffset, this`sealed, this`tries, this`faults, this`asked
      modifies this`wpendPending, this`wpendTot, this`wpendBuf, this`wpendType, this`wpendRet
      modifies transport`wire, transport`refused, writeBuffer, BufferMemory()
      ensures Valid() && FreshMemory() && Grown(old(Now()), Now())
      ensures asked == old(asked) || asked == old(asked) + {|data| + maxOverhead + |old(Tail())|}
      ensures Wrote(old(Now()), Now(), contentType, data, ret)
      ensures Tail() == [] || Tail() == old(Tail())
      ensures ret > 0 <==> !old(Refuses(contentType, data, address)) && faults == old(faults) && transport.refused == old(transport.refused)
      ensures ret > 0 ==> !wpendPending && writeBuffer.size == 0 && Tail() == if old(wpendPending) then old(Tail()) else []
    {
      hide Plain, RecordBytes, InOrder, Wrote, Grown, Risky;
      if wpendPending {
        ret := WritePending(contentType, data, address);
        return;
      }
      ret := WriteFresh(contentType, data, address, align);
    }

    /** The part of do_ssl3_write for a new record. */
    method WriteFresh(contentType: ContentType, data: seq<byte>, address: nat, align: nat) returns (ret: int)
      requires Valid() && !wpendPending
      modifies this`pendingFlight, this`pendingOffset, this`sealed, this`tries, this`faults, this`asked
      modifies this`wpendPending, this`wpendTot, this`wpendBuf, this`wpendType, this`wpendRet
      modifies transport`wire, transport`refused, writeBuffer, BufferMemory()
      ensures Valid() && FreshMemory() && Grown(old(Now()), Now())
      ensures asked == old(asked) || asked == old(asked) + {|data| + maxOverhead + |old(Tail())|}
      ensures Wrote(old(Now()), Now(), contentType, data, ret)
      ensures Tail() == [] || Tail() == old(Tail())
      ensures ret > 0 <==> !old(Refuses(contentType, data, address)) && faults == old(faults) && transport.refused == old(transport.refused)
      ensures ret > 0 ==> !wpendPending && writeBuffer.size == 0 && Tail() == []
    {
      hide Plain, RecordBytes, InOrder, Wrote, Grown, Risky, BadRetry, Folded, AddedToBuffer;
      ghost var before := Now();
      NothingSent(before);
      WroteNothing(before, before, contentType, data);
      if |data| > MAX_PLAIN_LENGTH || writeBuffer.size > 0 {
        return -1;
      }
      if |data| == 0 {
        return 0;
      }
      var ok;
      ghost var record;
      ok, record := SealFresh(contentType, data, address, align);
      if !ok {
        WroteNothing(before, Now(), contentType, data);
        return -1;
      }
      ret := WritePending(contentType, data, address);
      WroteAfterSeal(before, record, Now(), contentType, data, ret);
    }

    /** Makes room, folds the flight into the buffer, and seals. */
    method SealFresh(contentType: ContentType, data: seq<byte>, address: nat, align: nat) returns (ok: bool, ghost record: seq<byte>)
      requires Valid() && !wpendPending && writeBuffer.size == 0 && data != []
      modifies this`pendingFlight, this`pendingOffset, this`sealed, this`tries, this`faults, this`asked
      modifies this`wpendPending, this`wpendTot, this`wpendBuf, this`wpendType, this`wpendRet
      modifies writeBuffer, BufferMemory()
      ensures Valid() && FreshMemory() && Grown(old(Now()), Now())
      ensures asked == old(asked) + {|data| + maxOverhead + |old(Tail())|}
      ensures if ok then Now() == AddedToBuffer(Folded(old(Now())), Record(contentType, data, record))
              else Now() == old(Now()) || Now() == Folded(old(Now()))
      ensures ok <==> |data| + maxOverhead + |old(Tail())| < U16 && faults == old(faults)
      ensures ok ==> wpendPending && Tail() == [] && !BadRetry(contentType, data, address)
      ensures !ok ==> !wpendPending && (Tail() == [] || Tail() == old(Tail()))
    {
      hide Plain, RecordBytes, InOrder, Grown, Risky, BadRetry;
      ghost var before := Now();
      NothingSent(before);
      record := [];
      ok := PrepareBuffer(|data|, align);
      if !ok {
        return;
      }
      FoldKeeps(before);
      ok, record := SealIntoBuffer(contentType, data, address);
      if ok {
        BufferKeeps(Folded(before), Record(contentType, data, record));
        GrownTrans(before, Folded(before), Now());
      }
    }

    // ---------- Application data ----------

    /**
      * Writes of application data from `start` on that fail without asking cipher or transport: the first
      * record is refused, or, behind a record that was waiting, the second one and the flight do not fit.
      */
    predicate Stuck(data: seq<byte>, start: nat, address: nat)
      requires Structure() && start <= |data|
      reads this`pendingFlight, this`pendingOffset, this`wpendPending, this`wpendTot, this`wpendBuf, this`wpendType, this`wpendRet, writeBuffer
    {
      || Refuses(ApplicationData, data[start..start + Chunk(|data| - start)], address + start)
      || TooFull(wpendPending, wpendTot, |data| - start, |Tail()|)
    }

    function Chunk(n: nat): nat {
      if n > maxSendFragment then maxSendFragment else n
    }

    predicate TooFull(waiting: bool, size: nat, n: nat, tail: nat) {
      waiting && !partialWrite && size < n && Chunk(n - size) + maxOverhead + tail >= U16
    }

    /**
      * One turn of the loop of ssl3_write_app_data. Whether the rest of the write is stuck does not change
      * while the loop goes on.
      */
    method WriteRecord(data: seq<byte>, tot: nat, nw: nat, address: nat, align: nat, ghost before: Output) returns (ret: int)
      requires Valid() && tot <= |data| && nw == Chunk(|data| - tot)
      modifies this`pendingFlight, this`pendingOffset, this`sealed, this`tries, this`faults, this`asked
      modifies this`wpendPending, this`wpendTot, this`wpendBuf, this`wpendType, this`wpendRet
      modifies transport`wire, transport`refused, writeBuffer, BufferMemory()
      ensures Valid() && FreshMemory() && Grown(old(Now()), Now()) && Now().accepted == old(Now()).accepted
      ensures asked == old(asked) || asked == old(asked) + {nw + maxOverhead + |old(Tail())|}
      ensures Tail() == [] || Tail() == old(Tail())
      ensures ret > 0 ==> faults == old(faults) && transport.refused == old(transport.refused)
      ensures ret <= 0 && faults == old(faults) && transport.refused == old(transport.refused) ==> old(Stuck(data, tot, address))
      ensures ret > 0 ==> !wpendPending && ret == old(if wpendPending then wpendTot else nw) && ret <= nw
      ensures ret > 0 ==>
        if ret == |data| - tot || partialWrite then !old(Stuck(data, tot, address))
        else Stuck(data, tot + ret, address) == old(Stuck(data, tot, address))
      ensures old(Progress(before, Now(), data, tot)) ==> Progress(before, Now(), data, if ret > 0 then tot + ret else tot)
    {
      hide Plain, RecordBytes, InOrder, Wrote, Grown, Progress, Risky, Refuses;
      ghost var now := Now();
      ret := DoWrite(ApplicationData, data[tot..tot + nw], address + tot, align);
      WroteBounds(now, Now(), data[tot..tot + nw], ret);
      if Progress(before, now, data, tot) {
        ProgressStep(before, now, Now(), data, tot, nw, ret);
      }
      if ret > 0 && ret < |data| - tot {
        LaterRecord(data, tot + ret, address);
      }
    }

    /** A record behind the first one is refused only for lack of room. */
    lemma LaterRecord(data: seq<byte>, tot: nat, address: nat)
      requires Structure() && tot < |data| && !wpendPending && writeBuffer.size == 0
      ensures Stuck(data, tot, address) <==> Chunk(|data| - tot) + maxOverhead + |Tail()| >= U16
    {
    }

    /**
      * The loop of ssl3_write_app_data: `tot` bytes are done when it stops, with a positive result when that
      * is enough to return to the caller: all of the data, or one record if partial writes are enabled.
      */
    method WriteRecords(data: seq<byte>, start: nat, address: nat, align: nat, ghost before: Output)
      returns (ret: int, tot: nat)
      requires Valid() && start <= |data|
      modifies this`pendingFlight, this`pendingOffset, this`sealed, this`tries, this`faults, this`asked
      modifies this`wpendPending, this`wpendTot, this`wpendBuf, this`wpendType, this`wpendRet
      modifies transport`wire, transport`refused, writeBuffer, BufferMemory()
      ensures Valid() && FreshMemory() && Grown(old(Now()), Now())
      ensures AskedUpTo(old(asked), asked, |old(Tail())| + maxSendFragment + maxOverhead) && |Tail()| <= |old(Tail())|
      ensures start <= tot <= |data| && wnum == old(wnum) && accepted == old(accepted)
      ensures ret > 0 ==> tot > start && !wpendPending
      ensures ret > 0 <==> !old(Stuck(data, start, address)) && faults == old(faults) && transport.refused == old(transport.refused)
      ensures ret > 0 ==> tot == if !partialWrite then |data| else start + old(if wpendPending then wpendTot else Chunk(|data| - start))
      ensures old(Progress(before, Now(), data, start)) ==> Progress(before, Now(), data, tot)
    {
      hide Plain, RecordBytes, InOrder, Grown, Progress, Risky, AskedUpTo, Stuck;
      ghost var first := Now();
      NothingSent(first);
      AskedNothing(asked, |Tail()| + maxSendFragment + maxOverhead);
      tot := start;
      var n := |data| - tot;
      while true
        invariant start <= tot <= |data| && n == |data| - tot
        invariant Valid() && FreshMemory() && Grown(first, Now())
        invariant faults == old(faults) && transport.refused == old(transport.refused)
        invariant Stuck(data, tot, address) == old(Stuck(data, start, address))
        invariant partialWrite ==> tot == start && wpendPending == old(wpendPending) && wpendTot == old(wpendTot)
        invariant AskedUpTo(old(asked), asked, |old(Tail())| + maxSendFragment + maxOverhead) && |Tail()| <= |old(Tail())|
        invariant Progress(before, first, data, start) ==> Progress(before, Now(), data, tot)
        decreases n
      {
        var nw := if n > maxSendFragment then maxSendFragment else n;
        ghost var now, askedNow, tailNow := Now(), asked, |Tail()|;
        ret := WriteRecord(data, tot, nw, address, align, before);
        AskedMore(old(asked), askedNow, asked, nw + maxOverhead + tailNow, |old(Tail())| + maxSendFragment + maxOverhead);
        GrownTrans(first, now, Now());
        if ret <= 0 {
          return;
        }
        tot := tot + ret;
        if ret == n || partialWrite {
          return;
        }
        n := n - ret;
      }
    }

    /**
      * ssl3_write_app_data. A caller who retries with the same bytes, possibly followed by more,
      * gets each byte sealed once and in order. A shorter retry forgets how much was done.
      */
    method WriteAppData(data: seq<byte>, address: nat, align: nat) returns (ret: int)
      requires Valid() && |data| <= INT_MAX
      modifies this`pendingFlight, this`pendingOffset, this`sealed, this`tries, this`faults, this`wnum, this`accepted, this`asked
      modifies this`wpendPending, this`wpendTot, this`wpendBuf, this`wpendType, this`wpendRet
      modifies transport, writeBuffer, BufferMemory()
      ensures Valid() && FreshMemory() && Grown(old(Now()), Now())
      ensures old(RetryOf(Now(), data)) ==> Retried(old(Now()), Now(), data, ret)
      ensures ret > 0 <==>
        && writeShutdown == ShutdownNone && old(wnum <= |data| && !Stuck(data, wnum, address))
        && faults == old(faults) && transport.refused == old(transport.refused)
      ensures ret > 0 ==> ret == if !partialWrite then |data| else old(wnum + if wpendPending then wpendTot else Chunk(|data| - wnum))
      ensures |data| < old(wnum) && writeShutdown == ShutdownNone ==> ret == -1 && wnum == 0 && sealed == old(sealed)
      ensures AskedUpTo(old(asked), asked, |old(Tail())| + maxSendFragment + maxOverhead)
    {
      hide Plain, RecordBytes, InOrder, Grown, Progress, RetryOf, Retried, Risky, Stuck, AskedUpTo;
      ghost var before := Now();
      NothingSent(before);
      RetriedNothing(before, data);
      AskedNothing(asked, |Tail()| + maxSendFragment + maxOverhead);
      if writeShutdown != ShutdownNone {
        return -1;
      }
      var tot := wnum;
      wnum := 0;
      WnumIrrelevant(before, before, Now());
      if |data| < tot {
        return -1;
      }
      ret, tot := WriteRecords(data, tot, address, align, before);
      ghost var last := Now();
      GrownTrans(before, before.(wnum := 0), last);
      if ret <= 0 {
        wnum := tot;
        RetriedLater(before, last, data, tot, ret);
        WnumIrrelevant(before, last, Now());
        return;
      }
      accepted := accepted + tot;
      RetriedDone(before, last, data, tot);
      WnumIrrelevant(before, last, Now());
      return tot;
    }

    // ---------- Alerts ----------

    /** ssl3_dispatch_alert */
    method DispatchAlert(align: nat) returns (ret: int)
      requires Valid()
      modifies this`pendingFlight, this`pendingOffset, this`sealed, this`tries, this`faults, this`alertDispatch, this`asked
      modifies this`wpendPending, this`wpendTot, this`wpendBuf, this`wpendType, this`wpendRet
      modifies transport, writeBuffer, BufferMemory()
      ensures Valid() && FreshMemory() && Grown(old(Now()), Now()) && AlertOnly(old(Now()), Now())
      ensures alertDispatch == (old(alertDispatch) && ret <= 0)
      ensures ret > 0 && !old(wpendPending) ==> SealedOne(old(Now()), Now(), AlertRecord, [sendAlert.0, sendAlert.1])
      ensures ret > 0 <==>
        && !old(Refuses(AlertRecord, [sendAlert.0, sendAlert.1], alertAddress))
        && faults == old(faults) && transport.refused == old(transport.refused)
      ensures transport.flushes == old(transport.flushes) + if ret > 0 && sendAlert.0 == FATAL then 1 else 0
      ensures Tail() == [] || Tail() == old(Tail())
      ensures asked == old(asked) || asked == old(asked) + {2 + maxOverhead + |old(Tail())|}
    {
      hide Plain, RecordBytes, InOrder, Wrote, Grown, AlertOnly, SealedOne, Risky;
      ghost var before := Now();
      var alert := [sendAlert.0, sendAlert.1];
      ret := DoWrite(AlertRecord, alert, alertAddress, align);
      WroteAlert(before, Now(), alert, ret);
      if ret <= 0 {
        return;
      }
      alertDispatch := false;
      if sendAlert.0 == FATAL {
        var _ := transport.Flush();
      }
      return 1;
    }

    /** ssl_send_alert: nothing is sent after a closing alert; behind buffered data the alert waits. */
    method SendAlert(level: byte, desc: byte, align: nat) returns (ret: int)
      requires Valid()
      requires if level == WARNING then desc == CLOSE_NOTIFY else level == FATAL && desc != CLOSE_NOTIFY
      modifies this`pendingFlight, this`pendingOffset, this`sealed, this`tries, this`faults, this`alertDispatch, this`sendAlert, this`writeShutdown, this`asked
      modifies this`wpendPending, this`wpendTot, this`wpendBuf, this`wpendType, this`wpendRet
      modifies transport, writeBuffer, BufferMemory()
      ensures Valid() && FreshMemory() && Grown(old(Now()), Now()) && AlertOnly(old(Now()), Now())
      ensures writeShutdown == old(if writeShutdown != ShutdownNone then writeShutdown else if level == WARNING then ShutdownCloseNotify else ShutdownError)
      ensures old(writeShutdown) != ShutdownNone ==> ret == -1 && Now() == old(Now()) && writeShutdown == old(writeShutdown)
      ensures old(writeShutdown) == ShutdownNone ==> sendAlert == (level, desc) && alertDispatch == (ret <= 0)
      ensures ret > 0 <==>
        && old(writeShutdown == ShutdownNone && writeBuffer.size == 0 && !Refuses(AlertRecord, [level, desc], alertAddress))
        && faults == old(faults) && transport.refused == old(transport.refused)
      ensures Tail() == [] || Tail() == old(Tail())
      ensures asked == old(asked) || asked == old(asked) + {2 + maxOverhead + |old(Tail())|}
    {
      hide Plain, RecordBytes, InOrder, Grown, AlertOnly, SealedOne, Risky;
      NothingSent(Now());
      AlertNothing(Now());
      if writeShutdown != ShutdownNone {
        return -1;
      }
      writeShutdown := if level == WARNING && desc == CLOSE_NOTIFY then ShutdownCloseNotify else ShutdownError;
      alertDispatch := true;
      sendAlert := (level, desc);
      if writeBuffer.size == 0 {
        ret := DispatchAlert(align);
        return;
      }
      return -1;
    }
  }

  // ---------- Whole runs ----------

  datatype Step =
    | Message(msg: seq<byte>)
    | ChangeCipher
    | FlightAlert(level: byte, desc: byte)
    | Flush
    | Write(data: seq<byte>, address: nat, align: nat)
    | Alert(level: byte, desc: byte, align: nat)
    | Dispatch(align: nat)

  /** One call into the connection, unless a caller is not allowed to make it now. */
  method Perform(c: Connection, step: Step)
    requires c.Valid() && !step.Write?
    modifies c, c.transport, c.writeBuffer, c.BufferMemory()
    ensures c.Valid() && c.FreshMemory() && Grown(old(c.Now()), c.Now()) && AlertOnly(old(c.Now()), c.Now())
    ensures old(c.asked) <= c.asked
  {
    hide Plain, RecordBytes, InOrder, Grown, Wrote, AddedHandshake, Delivered, Sent, Risky;
    NothingSent(c.Now());
    ghost var before := c.Now();
    match step
    case Message(msg) =>
      if c.pendingOffset == 0 {
        var ok := c.AddMessage(msg);
        HandshakeOnly(before, c.Now(), msg, ok);
      }
    case ChangeCipher =>
      if c.pendingOffset == 0 {
        var _ := c.AddSmallRecord(ChangeCipherSpec, [1]);
      }
    case FlightAlert(level, desc) =>
      if c.pendingOffset == 0 {
        var _ := c.AddSmallRecord(AlertRecord, [level, desc]);
      }
    case Flush =>
      var _ := c.FlushFlight();
    case Alert(level, desc, align) =>
      if (if level == WARNING then desc == CLOSE_NOTIFY else level == FATAL && desc != CLOSE_NOTIFY) {
        var _ := c.SendAlert(level, desc, align);
      }
    case Dispatch(align) =>
      var _ := c.DispatchAlert(align);
  }

  /**
    * In every interleaving everything sealed is on the wire, in the buffer or in the pending flight, in
    * sealing order, unless the buffer was asked for a capacity whose offset can wrap.
    */
  method Run(c: Connection, steps: seq<Step>)
    requires c.Valid()
    modifies c, c.transport, c.writeBuffer, c.BufferMemory()
    ensures c.Valid() && Grown(old(c.Now()), c.Now()) && old(c.asked) <= c.asked
    ensures !Risky(c.asked) ==> InOrder(c.Now()) && c.transport.wire <= RecordBytes(c.sealed)
  {
    hide Plain, RecordBytes, InOrder, Grown, AlertOnly, Retried, RetryOf, Risky;
    ghost var first := c.Now();
    NothingSent(first);
    for i := 0 to |steps|
      invariant c.Valid() && c.FreshMemory() && Grown(first, c.Now()) && old(c.asked) <= c.asked
    {
      ghost var before := c.Now();
      match steps[i]
      case Write(data, address, align) =>
        if |data| <= INT_MAX {
          var _ := c.WriteAppData(data, address, align);
          GrownTrans(first, before, c.Now());
        }
      case _ =>
        Perform(c, steps[i]);
        GrownTrans(first, before, c.Now());
    }
    if !Risky(c.asked) {
      WireIsPrefix(c.Now());
    }
  }

  /** One call: how many bytes of the data it offers, and where they are. */
  datatype Offer = Offer(len: nat, address: nat, align: nat)

  /** Each call offers at least as much as the one before. */
  predicate Growing(offers: seq<Offer>, len: nat) {
    && (forall i :: 0 <= i < |offers| ==> offers[i].len <= len)
    && (forall i, j :: 0 <= i < j < |offers| ==> offers[i].len <= offers[j].len)
  }

  lemma OfferMore(first: Output, o: Output, less: seq<byte>, more: seq<byte>, ret: int)
    requires Retried(first, o, less, ret) && less <= more
    ensures Retried(first, o, more, ret)
  {
    hide Plain;
    if ret > 0 {
      assert more[..ret] == less[..ret];
    }
  }

  /**
    * A caller that repeats a write until it is accepted, offering the same bytes again or more of them,
    * with any handshake messages, flushes and alerts in between: the bytes it is told were written are the
    * ones sealed, each once.
    */
  method WriteRepeatedly(c: Connection, data: seq<byte>, offers: seq<Offer>, between: seq<Step>) returns (ret: int)
    requires c.Valid() && |data| <= INT_MAX && |offers| == |between| && Growing(offers, |data|)
    requires RetryOf(c.Now(), if offers == [] then data else data[..offers[0].len])
    modifies c, c.transport, c.writeBuffer, c.BufferMemory()
    ensures c.Valid() && Retried(old(c.Now()), c.Now(), data, ret)
    ensures ret > 0 && !c.partialWrite ==> exists i :: 0 <= i < |offers| && ret == offers[i].len
  {
    hide Plain, RecordBytes, InOrder, Grown, AlertOnly, Retried, RetryOf, Risky;
    ghost var first := c.Now();
    ghost var offered := if offers == [] then data else data[..offers[0].len];
    RetriedNothing(first, offered);
    OfferMore(first, first, offered, data, -1);
    ret := -1;
    for i := 0 to |between|
      invariant ret == -1 && c.Valid() && c.FreshMemory()
      invariant Retried(first, c.Now(), offered, -1) && Retried(first, c.Now(), data, -1)
      invariant offered <= data && (i < |offers| ==> |offered| <= offers[i].len)
    {
      ghost var before := c.Now();
      var now := data[..offers[i].len];
      assert offered <= now;
      OfferMore(first, before, offered, now, -1);
      offered := now;
      RetriedAgain(first, before, now);
      ret := c.WriteAppData(now, offers[i].address, offers[i].align);
      RetriedTrans(first, before, c.Now(), now, ret);
      OfferMore(first, c.Now(), now, data, ret);
      OfferMore(first, c.Now(), now, data, if ret > 0 then ret else -1);
      if ret > 0 {
        return;
      }
      ret := -1;
      ghost var middle := c.Now();
      if !between[i].Write? {
        Perform(c, between[i]);
        RetriedAlert(first, middle, c.Now(), now);
        RetriedAlert(first, middle, c.Now(), data);
      }
    }
  }

  lemma HandshakeOnly(before: Output, after: Output, msg: seq<byte>, ok: bool)
    requires AddedHandshake(before, after, msg, ok)
    ensures Grown(before, after) && AlertOnly(before, after)
  {
    var sent :| 0 <= sent <= |msg| && MessagePart(before, after, msg, sent);
  }

  lemma WireIsPrefix(o: Output)
    requires InOrder(o)
    ensures o.wire <= RecordBytes(o.sealed)
  {
  }

  // ---------- Retried writes ----------

  /** The caller offers the bytes of the unfinished write again, possibly followed by more. */
  predicate RetryOf(o: Output, data: seq<byte>) {
    WriteState(o) && InProgress(o) <= data
  }

  /** Everything acknowledged earlier, then the bytes returned now; an unfinished write stays retryable. */
  predicate Retried(before: Output, after: Output, data: seq<byte>, ret: int) {
    && WriteState(after)
    && before.accepted <= |AppData(before)|
    && if ret > 0 then
         && ret <= |data|
         && after.accepted == before.accepted + ret
         && AppData(after) == AppData(before)[..before.accepted] + data[..ret]
       else
         && RetryOf(after, data)
         && after.accepted == before.accepted
         && AppData(before) <= AppData(after)
  }

  function PendingApp(o: Output): nat {
    if o.pending.Some? && o.pending.value.0 == ApplicationData then o.pending.value.1 else 0
  }

  /** tot bytes are done and at most one sealed record follows them. */
  predicate Progress(before: Output, o: Output, data: seq<byte>, tot: nat) {
    && before.accepted <= |AppData(before)|
    && tot + PendingApp(o) <= |data|
    && AppData(before) <= AppData(o)
    && AppData(o) == AppData(before)[..before.accepted] + data[..tot + PendingApp(o)]
  }

  lemma RetriedNothing(o: Output, data: seq<byte>)
    ensures RetryOf(o, data) ==> Retried(o, o, data, -1) && o.wnum <= |data| && Progress(o, o.(wnum := 0), data, o.wnum)
  {
    if RetryOf(o, data) {
      assert AppData(o) == AppData(o)[..o.accepted] + InProgress(o);
      assert InProgress(o) == data[..|InProgress(o)|];
    }
  }

  lemma ProgressStep(before: Output, now: Output, after: Output, data: seq<byte>, tot: nat, nw: nat, ret: int)
    requires Progress(before, now, data, tot) && tot + nw <= |data|
    requires Wrote(now, after, ApplicationData, data[tot..tot + nw], ret)
    ensures ret > 0 ==> after.pending.None? && tot + ret <= |data| && Progress(before, after, data, tot + ret)
    ensures ret <= 0 ==> Progress(before, after, data, tot)
  {
    hide Plain;
    if now.pending.None? && after.sealed != now.sealed {
      ProgressSealed(before, now, after, data, tot, nw);
    }
  }

  lemma ProgressSealed(before: Output, now: Output, after: Output, data: seq<byte>, tot: nat, nw: nat)
    requires Progress(before, now, data, tot) && tot + nw <= |data| && now.pending.None?
    requires SealedOne(now, after, ApplicationData, data[tot..tot + nw])
    ensures AppData(before) <= AppData(after)
    ensures AppData(after) == AppData(before)[..before.accepted] + data[..tot + nw]
  {
    hide Plain;
    var bytes :| after.sealed == now.sealed + [Record(ApplicationData, data[tot..tot + nw], bytes)];
    AddRecord(now.sealed, Record(ApplicationData, data[tot..tot + nw], bytes));
    assert data[..tot] + data[tot..tot + nw] == data[..tot + nw];
  }

  lemma RetriedLater(before: Output, last: Output, data: seq<byte>, tot: nat, ret: int)
    requires last.accepted == before.accepted && ret <= 0
    ensures Progress(before, last, data, tot) ==> Retried(before, last.(wnum := tot), data, ret)
  {
    hide Plain;
    if Progress(before, last, data, tot) {
      assert InProgress(last.(wnum := tot)) == data[..tot + PendingApp(last)];
    }
  }

  lemma RetriedDone(before: Output, last: Output, data: seq<byte>, done: nat)
    requires 0 < done && last.pending.None? && last.wnum == 0 && last.accepted == before.accepted
    ensures Progress(before, last, data, done) ==> Retried(before, last.(accepted := before.accepted + done), data, done)
  {
  }

  lemma RetriedAgain(first: Output, o: Output, data: seq<byte>)
    requires Retried(first, o, data, -1)
    ensures RetryOf(o, data)
  {
  }

  lemma RetriedTrans(first: Output, before: Output, after: Output, data: seq<byte>, ret: int)
    requires Retried(first, before, data, -1) && Retried(before, after, data, ret)
    ensures Retried(first, after, data, ret)
    ensures ret <= 0 ==> Retried(first, after, data, -1)
  {
    assert AppData(before)[..before.accepted] == AppData(first)[..first.accepted];
  }

  lemma RetriedAlert(first: Output, before: Output, after: Output, data: seq<byte>)
    requires Retried(first, before, data, -1) && AlertOnly(before, after)
    ensures Retried(first, after, data, -1)
  {
  }

  lemma WroteBounds(before: Output, after: Output, data: seq<byte>, ret: int)
    requires Wrote(before, after, ApplicationData, data, ret)
    ensures ret <= |data| && after.wnum == before.wnum && after.accepted == before.accepted
    ensures ret > 0 ==> after.pending.None? && ret == if before.pending.Some? then before.pending.value.1 else |data|
  {
  }

  lemma GrownTrans(a: Output, b: Output, c: Output)
    requires Grown(a, b) && Grown(b, c)
    ensures Grown(a, c)
  {
  }

  lemma WnumIrrelevant(before: Output, a: Output, b: Output)
    requires Grown(before, a) && b == a.(wnum := b.wnum, accepted := b.accepted)
    ensures InOrder(a) ==> InOrder(b)
    ensures Grown(before, b)
  {
  }

  // ---------- Alerts ----------

  /** A step that seals no application data and leaves an unfinished write retryable. */
  predicate AlertOnly(before: Output, after: Output) {
    && AppData(after) == AppData(before) && after.accepted == before.accepted
    && (WriteState(before) ==> WriteState(after))
  }

  lemma AlertNothing(o: Output)
    ensures AlertOnly(o, o)
  {
  }

  lemma WroteAlert(before: Output, after: Output, alert: seq<byte>, ret: int)
    requires Wrote(before, after, AlertRecord, alert, ret)
    ensures AlertOnly(before, after)
    ensures ret > 0 && before.pending.None? ==> SealedOne(before, after, AlertRecord, alert)
  {
    hide Plain;
    if after.sealed != before.sealed {
      var bytes :| after.sealed == before.sealed + [Record(AlertRecord, alert, bytes)];
      AddRecord(before.sealed, Record(AlertRecord, alert, bytes));
    }
  }

  // ---------- Records ----------

  lemma WroteNothing(before: Output, after: Output, t: ContentType, data: seq<byte>)
    requires before.pending.None?
    requires after == before || after == Folded(before)
    ensures Wrote(before, after, t, data, -1) && Wrote(before, after, t, data, 0)
  {
  }

  lemma WroteAfterSeal(before: Output, record: seq<byte>, after: Output, t: ContentType, data: seq<byte>, ret: int)
    requires before.pending.None?
    requires Wrote(AddedToBuffer(Folded(before), Record(t, data, record)), after, t, data, ret)
    requires Grown(AddedToBuffer(Folded(before), Record(t, data, record)), after)
    ensures Wrote(before, after, t, data, ret) && Grown(before, after)
  {
  }

  lemma BufferSent(before: Output, after: Output)
    requires before.wire <= after.wire && after == before.(wire := after.wire, buffered := after.buffered)
    ensures Grown(before, after) && AppUntouched(before, after)
    ensures Delivered(before.wire, before.buffered, after.wire, after.buffered) ==>
      Sent(before, after) && (InOrder(before) ==> InOrder(after))
  {
  }

  lemma NothingSent(o: Output)
    ensures Sent(o, o) && Grown(o, o) && AppUntouched(o, o)
  {
  }

  lemma FlightSent(before: Output, middle: Output, after: Output)
    requires Grown(before, middle) && AppUntouched(before, middle) && middle.buffered == []
    requires Delivered(middle.wire, middle.tail, after.wire, after.tail)
    requires after == middle.(wire := after.wire, tail := after.tail)
    ensures Grown(before, after) && AppUntouched(before, after)
    ensures Sent(before, middle) ==> Sent(before, after)
    ensures InOrder(middle) ==> InOrder(after)
  {
    assert middle.wire + [] == middle.wire && after.wire + [] == after.wire;
  }

  lemma AllSent(o: Output)
    requires InOrder(o) && o.buffered == [] && o.tail == []
    ensures o.wire == RecordBytes(o.sealed)
  {
  }

  lemma PendingIrrelevant(before: Output, flushed: Output, after: Output)
    requires Grown(before, flushed) && after == flushed.(pending := after.pending)
    ensures InOrder(flushed) ==> InOrder(after)
    ensures Grown(before, after)
  {
  }
}
