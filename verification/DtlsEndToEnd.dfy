/**
  * A sender of DTLS handshake flights, a network that loses, repeats and reorders what was sealed, and
  * a receiver, together.
  */
module DtlsEndToEnd {
  import opened Wire
  import opened Reassembly
  import opened DtlsSend
  import opened FlightPlan
  import opened FlightSender
  import Ring = HandshakeRing
  import Delivery = DtlsDelivery
  import DtlsReceive

  /** What the two peers do, and what the network does between them. */
  datatype Step =
    | AddMessage(msgType: byte, body: seq<byte>)
    | AddChangeCipherSpec
    | Flush(queriedMtu: int)
    | Retransmit(queriedMtu: int)
    | NewWriteState(aead: Aead)
    | Deliver(index: nat, opens: bool, maxLen: nat)
    | Read
    | NewReadState(version: nat)

  /** The plaintext of a fragment of a message that a reader of message n cannot mistake. */
  ghost predicate NearPlain(plain: seq<byte>, added: seq<seq<byte>>, n: nat)
    requires Delivery.MessagesOk(added)
  {
    exists k: nat, h: Header, body: seq<byte> :: FragmentOf(plain, h, body, added, k) && Delivery.Near(k, n)
  }

  /**
    * What the network may still deliver to a reader of message n: a record of no message whose number has
    * come around since.
    */
  predicate Timely(plain: seq<byte>, sent: seq<seq<byte>>, n: nat)
    requires Delivery.MessagesOk(sent)
  {
    match ParseFragment(plain)
    case None => true
    case Some((h, body, _)) =>
      forall k | 0 <= k < |sent| :: Delivery.Genuine(h, body, sent[k], k) ==> Delivery.Near(k, n)
  }

  /** Since whatever was sealed is a fragment of some message, it is then one of a near message. */
  lemma TimelyIsNear(log: seq<Use>, added: seq<seq<byte>>, u: Use, n: nat)
    requires UsesGenuine(log, added) && u in log && u.contentType == Ring.HANDSHAKE && Timely(u.plain, added, n)
    ensures NearPlain(u.plain, added, n)
  {
    hide HeaderBytes, ParseFragment, Delivery.MessageOk, Delivery.Genuine;
    var k: nat, h, body :| FragmentOf(u.plain, h, body, added, k);
    assert body == body + [] && h.fragLen == |body| by { GenuineLength(h, body, added[k], k); }
    FragmentRoundTrip(h, body, []);
    assert HeaderBytes(h) + body + [] == u.plain;
    assert Delivery.Near(k, n);
  }

  lemma GenuineLength(h: Header, body: seq<byte>, m: seq<byte>, k: nat)
    requires Delivery.MessageOk(m, k) && Delivery.Genuine(h, body, m, k)
    ensures h.fragLen == |body|
  {
  }

  /** What was sealed as a handshake record, when it arrives, leaves only bytes of the sender's messages. */
  lemma ArrivalKeeps(log: seq<Use>, added: seq<seq<byte>>, u: Use, slots: Ring.Slots, c: Ring.Reading, n: nat)
    requires Delivery.MessagesOk(added) && u in log && NearPlain(u.plain, added, n)
    requires Delivery.Faithful(slots, n, added) && c.readSeq == n % Ring.SEQUENCE_NUMBERS
    ensures Delivery.Faithful(Ring.AddFragments(slots, c, u.plain).0, n, added)
  {
    hide HeaderBytes, Delivery.Faithful, Delivery.GenuineRecord, Ring.AddFragments;
    var k: nat, h, body :| FragmentOf(u.plain, h, body, added, k) && Delivery.Near(k, n);
    FragmentRecordGenuine(h, body, added, k, n);
    Delivery.GenuineRecordFaithful(slots, c, n, added, u.plain);
  }

  /** With fewer messages than numbers in all, less the window, everything is timely. */
  lemma FewAreTimely(plain: seq<byte>, sent: seq<seq<byte>>, n: nat)
    requires Delivery.MessagesOk(sent) && n <= |sent| < Ring.SEQUENCE_NUMBERS - (Ring.FLIGHT - 1)
    ensures Timely(plain, sent, n)
  {
    hide ParseFragment, Delivery.MessageOk, Delivery.Genuine;
  }

  /** What the receiver has stays right when the sender goes on. */
  lemma FaithfulGrows(slots: Ring.Slots, n: nat, sent: seq<seq<byte>>, more: seq<seq<byte>>)
    requires Delivery.Faithful(slots, n, sent) && sent <= more
    ensures Delivery.Faithful(slots, n, more)
  {
    hide Delivery.PartOf, Ring.SlotOk;
    forall i | 0 <= i < Ring.FLIGHT && slots[i].Some?
      ensures Delivery.SlotFaithful(slots[i].value, n, more)
    {
      assert Delivery.SlotFaithful(slots[i].value, n, sent);
    }
  }

  // ---------- The sender's steps ----------

  /** Returns the messages added so far. */
  method SenderStep(s: Sender, step: Step, sent: seq<seq<byte>>) returns (more: seq<seq<byte>>)
    requires s.Valid() && sent == s.added
    modifies s, s.sink, s.writer, s.writer.writeSequence, s.writer.lastWriteSequence
    ensures s.Valid() && more == s.added && sent <= more
  {
    hide FlightOk, LastPackets, UsesGenuine, Writer.Valid, Delivery.MessageOk, WholePass, PacketsSent;
    more := sent;
    match step
    case AddMessage(msgType, body) =>
      var data := s.BuildMessage(msgType, body);
      if data.Some? {
        var ok := s.AddOutgoing(false, data.value);
        more := if ok then sent + [data.value] else sent;
      }
    case AddChangeCipherSpec =>
      var _ := s.AddOutgoing(true, []);
    case Flush(queriedMtu) =>
      var _ := s.FlushFlight(queriedMtu);
    case Retransmit(queriedMtu) =>
      var _ := s.Retransmit(queriedMtu);
    case NewWriteState(aead) =>
      if aead.generation == s.writer.aead.generation + 1 && aead.version < 0x1_0000 {
        s.SetWriteState(aead);
      }
    case _ =>
  }

  // ---------- The receiver's steps ----------

  /**
    * One record that was sealed at any time arrives; the receiver's cipher opens it or not. If it does, and the
    * record is one for the read state, its fragments go to the ring.
    */
  method Arrive(u: Use, opens: bool, reader: DtlsReceive.Reader, incoming: Ring.Incoming, maxLen: nat)
    requires reader.Valid() && incoming.Valid()
    requires {reader, reader.bitmap} !! {incoming} + incoming.footprint
    modifies reader, reader.bitmap, incoming, incoming.footprint
    ensures reader.Valid() && incoming.Valid() && fresh(incoming.footprint - old(incoming.footprint))
    ensures incoming.readSeq == old(incoming.readSeq)
    ensures u.Ok() && opens && u.contentType == Ring.HANDSHAKE && |u.plain| <= DtlsReceive.MAX_PLAIN_LENGTH ==>
      old(!reader.closeNotify && reader.Fresh(u.Bytes()) && Ring.WindowOk(incoming.view, incoming.readSeq)) ==>
        incoming.view == Ring.AddFragments(old(incoming.view), old(incoming.Config(reader.rEpoch, maxLen)), u.plain).0
    ensures incoming.view == old(incoming.view)
      || (u.contentType == Ring.HANDSHAKE && exists c: Ring.Reading | c.readSeq == incoming.readSeq ::
            Ring.WindowOk(old(incoming.view), c.readSeq) && incoming.view == Ring.AddFragments(old(incoming.view), c, u.plain).0)
  {
    hide Ring.AddFragments, DtlsReceive.Reader.Valid, DtlsReceive.Reader.Fresh, Ring.WindowOk, RecordOf;
    if !u.Ok() {
      return;
    }
    RecordFields(u.contentType, u.version, u.epoch, u.sequence, u.ciphertext);
    var result, _ := reader.OpenRecord(u.Bytes(), if opens then Some(u.plain) else None);
    if result.Success? {
      ghost var c := incoming.Config(reader.rEpoch, maxLen);
      var _ := incoming.OpenHandshake(result.contentType, result.plain, reader.nullCipher, reader.rEpoch, maxLen);
      assert c.readSeq == incoming.readSeq;
    }
  }

  // ---------- Whole runs ----------

  ghost function Footprint(s: Sender): set<object> {
    {s, s.sink, s.writer, s.writer.writeSequence, s.writer.lastWriteSequence}
  }

  ghost predicate Separate(s: Sender, reader: DtlsReceive.Reader, incoming: Ring.Incoming)
    reads incoming
  {
    Footprint(s) !! {reader, reader.bitmap} !! {incoming} + incoming.footprint
  }

  /** What was read is the first messages sent. */
  ghost predicate InStep(sent: seq<seq<byte>>, view: Ring.Slots, readSeq: nat, read: seq<seq<byte>>) {
    && readSeq == |read| % Ring.SEQUENCE_NUMBERS
    && read <= sent && Delivery.Faithful(view, |read|, sent)
  }

  lemma InStepGrows(sent: seq<seq<byte>>, more: seq<seq<byte>>, view: Ring.Slots, readSeq: nat, read: seq<seq<byte>>)
    requires InStep(sent, view, readSeq, read) && sent <= more
    ensures InStep(more, view, readSeq, read)
  {
    hide Delivery.Faithful;
    FaithfulGrows(view, |read|, sent, more);
  }

  lemma InStepArrives(log: seq<Use>, sent: seq<seq<byte>>, u: Use, view: Ring.Slots, c: Ring.Reading, read: seq<seq<byte>>)
    requires UsesGenuine(log, sent) && u in log && u.contentType == Ring.HANDSHAKE && Timely(u.plain, sent, |read|)
    requires InStep(sent, view, c.readSeq, read) && Ring.WindowOk(view, c.readSeq)
    ensures InStep(sent, Ring.AddFragments(view, c, u.plain).0, c.readSeq, read)
  {
    hide Delivery.Faithful, Ring.AddFragments, NearPlain, Timely;
    TimelyIsNear(log, sent, u, |read|);
    ArrivalKeeps(log, sent, u, view, c, |read|);
  }

  lemma InStepReads(sent: seq<seq<byte>>, view: Ring.Slots, readSeq: nat, read: seq<seq<byte>>, raw: seq<byte>)
    requires InStep(sent, view, readSeq, read)
    requires Complete(view, readSeq) && raw == Ring.Current(view, readSeq).value.data
    ensures InStep(sent, view[readSeq % Ring.FLIGHT := None], (readSeq + 1) % Ring.SEQUENCE_NUMBERS, read + [raw])
  {
    hide Delivery.Faithful;
    Delivery.MessageRead(view, |read|, sent);
  }

  predicate Complete(view: Ring.Slots, readSeq: nat) {
    Ring.Current(view, readSeq).Some? && Ring.Current(view, readSeq).value.Complete()
  }

  /** The next message, when it is complete. */
  method ReadMessage(incoming: Ring.Incoming) returns (raw: Option<seq<byte>>)
    requires incoming.Valid()
    modifies incoming, incoming.slots
    ensures incoming.Valid() && incoming.footprint == old(incoming.footprint)
    ensures raw.Some? <==> old(Complete(incoming.view, incoming.readSeq))
    ensures raw.None? ==> incoming.view == old(incoming.view) && incoming.readSeq == old(incoming.readSeq)
    ensures raw.Some? ==>
      && raw.value == Ring.Current(old(incoming.view), old(incoming.readSeq)).value.data
      && incoming.view == old(incoming.view)[old(incoming.readSeq) % Ring.FLIGHT := None]
      && incoming.readSeq == (old(incoming.readSeq) + 1) % Ring.SEQUENCE_NUMBERS
  {
    hide Ring.WindowOk;
    raw := incoming.GetMessage();
    if raw.Some? {
      incoming.NextMessage();
    }
  }

  method Perform(s: Sender, reader: DtlsReceive.Reader, incoming: Ring.Incoming, step: Step, sent: seq<seq<byte>>, read: seq<seq<byte>>)
    returns (more: seq<seq<byte>>, after: seq<seq<byte>>)
    requires s.Valid() && reader.Valid() && incoming.Valid() && Separate(s, reader, incoming)
    requires sent == s.added && InStep(sent, incoming.view, incoming.readSeq, read)
    modifies s, s.sink, s.writer, s.writer.writeSequence, s.writer.lastWriteSequence
    modifies reader, reader.bitmap, incoming, incoming.footprint
    ensures s.Valid() && reader.Valid() && incoming.Valid() && Separate(s, reader, incoming)
    ensures fresh(incoming.footprint - old(incoming.footprint))
    ensures more == s.added && InStep(more, incoming.view, incoming.readSeq, after)
    ensures sent <= more
    ensures if step.Read? && old(Complete(incoming.view, incoming.readSeq)) then |after| == |read| + 1 && after[..|read|] == read
            else after == read
  {
    hide FlightOk, LastPackets, UsesGenuine, Writer.Valid, Ring.WindowOk, InStep, Timely, Ring.AddFragments, DtlsReceive.Reader.Valid;
    more, after := sent, read;
    Genuine(s.writer.uses, sent);
    match step
    case Deliver(index, opens, maxLen) =>
      if index < |s.writer.uses| {
        var u := s.writer.uses[index];
        if u.contentType == Ring.HANDSHAKE && !Timely(u.plain, sent, |read|) {
          return;
        }
        ghost var view := incoming.view;
        Arrive(u, opens, reader, incoming, maxLen);
        if incoming.view != view {
          ghost var c: Ring.Reading :| c.readSeq == incoming.readSeq
            && Ring.WindowOk(view, c.readSeq) && incoming.view == Ring.AddFragments(view, c, u.plain).0;
          InStepArrives(s.writer.uses, sent, u, view, c, read);
        }
      }
    case Read =>
      ghost var view, readSeq := incoming.view, incoming.readSeq;
      var raw := ReadMessage(incoming);
      if raw.Some? {
        InStepReads(sent, view, readSeq, read, raw.value);
        after := read + [raw.value];
      }
    case NewReadState(version) =>
      var unprocessed := incoming.HasUnprocessedData();
      var _ := reader.SetReadState(unprocessed, version);
    case _ =>
      more := SenderStep(s, step, sent);
      InStepGrows(sent, more, incoming.view, incoming.readSeq, read);
  }

  lemma Genuine(log: seq<Use>, added: seq<seq<byte>>)
    requires UsesGenuine(log, added)
    ensures Delivery.MessagesOk(added)
  {
  }

  /**
    * Whatever the two peers do and whatever the network loses, repeats and reorders, of all records that
    * were ever sealed: the messages read are the first ones sent, byte for byte.
    */
  method Run(s: Sender, reader: DtlsReceive.Reader, incoming: Ring.Incoming, steps: seq<Step>)
    returns (sent: seq<seq<byte>>, read: seq<seq<byte>>)
    requires s.Valid() && reader.Valid() && incoming.Valid() && Separate(s, reader, incoming)
    requires s.added == [] && Ring.Empty(incoming.view) && incoming.readSeq == 0
    modifies s, s.sink, s.writer, s.writer.writeSequence, s.writer.lastWriteSequence
    modifies reader, reader.bitmap, incoming, incoming.footprint
    ensures s.Valid() && reader.Valid() && incoming.Valid()
    ensures sent == s.added && read <= sent && incoming.readSeq == |read| % Ring.SEQUENCE_NUMBERS
  {
    hide FlightOk, LastPackets, UsesGenuine, Writer.Valid, Ring.WindowOk, InStep, DtlsReceive.Reader.Valid, Delivery.MessageOk;
    sent, read := [], [];
    StartInStep(incoming.view);
    for i := 0 to |steps|
      invariant s.Valid() && reader.Valid() && incoming.Valid() && Separate(s, reader, incoming)
      invariant fresh(incoming.footprint - old(incoming.footprint))
      invariant sent == s.added && InStep(sent, incoming.view, incoming.readSeq, read)
    {
      sent, read := Perform(s, reader, incoming, steps[i], sent, read);
    }
    EndInStep(sent, incoming.view, incoming.readSeq, read);
  }

  lemma StartInStep(view: Ring.Slots)
    requires Ring.Empty(view)
    ensures InStep([], view, 0, [])
  {
  }

  lemma EndInStep(sent: seq<seq<byte>>, view: Ring.Slots, readSeq: nat, read: seq<seq<byte>>)
    requires InStep(sent, view, readSeq, read)
    ensures read <= sent && readSeq == |read| % Ring.SEQUENCE_NUMBERS
  {
  }
}
