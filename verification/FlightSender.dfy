/** Sending DTLS handshake flights: fragments cut to the size of a packet, packets that may fail to go out. */
module FlightSender {
  import opened Wire
  import opened Reassembly
  import opened DtlsSend
  import opened FlightPlan
  import ReplayWindow
  import Ring = HandshakeRing
  import Delivery = DtlsDelivery

  const MIN_MTU: nat := 256 - 28
  const DEFAULT_MTU: nat := 1500 - 28
  const MAX_QUERIED_MTU: nat := 0x4000_0000
  const MAX_U32: nat := 0xFFFF_FFFF

  /** The datagram transport: a packet goes out whole, or the write fails. */
  class Sink {
    var packets: seq<seq<byte>>
    /** How many writes and flushes failed. */
    ghost var refused: nat

    constructor ()
      ensures packets == [] && refused == 0
    {
      packets, refused := [], 0;
    }

    method Write(packet: seq<byte>) returns (ret: int)
      modifies this
      ensures packets == if ret > 0 then old(packets) + [packet] else old(packets)
      ensures refused == old(refused) + if ret > 0 then 0 else 1
    {
      ret := *;
      if ret > 0 {
        packets := packets + [packet];
      } else {
        refused := refused + 1;
      }
    }

    method Flush() returns (ret: int)
      modifies this`refused
      ensures refused == old(refused) + if ret > 0 then 0 else 1
    {
      ret := *;
      if ret <= 0 {
        refused := refused + 1;
      }
    }
  }

  datatype SealResult = SealError | NoProgress | SealPartial | SealSuccess

  datatype PacketResult = PacketSealed | PacketError | MtuTooSmall

  class Sender {
    const writer: Writer
    const sink: Sink
    var messages: seq<Outgoing>
    var written: nat
    var offset: nat
    var complete: bool
    var flightHasReply: bool
    var writeSeq: nat
    var mtu: nat
    var noQueryMtu: bool
    var writeShutdown: bool

    ghost var added: seq<seq<byte>>
    ghost var numbers: seq<nat>
    ghost var pass: seq<seq<Piece>>
    ghost var skipped: seq<Piece>

    ghost predicate Valid()
      reads this, sink, writer, writer.writeSequence, writer.lastWriteSequence
    {
      && writer.Valid() && FlightOk(Now())
      && LastPackets(sink.packets, pass, writer.uses) && UsesGenuine(writer.uses, added)
    }

    /** What sealing needs, also between the records of a packet. */
    ghost predicate Ready()
      reads this, writer, writer.writeSequence, writer.lastWriteSequence
    {
      && writer.Valid() && FlightOf(messages, numbers, added)
      && Shaped(messages) && CursorOk(messages, Cursor(written, offset))
      && UsesGenuine(writer.uses, added)
    }

    ghost function Now(): Flight
      reads this
    {
      Flight(messages, Cursor(written, offset), writeSeq, added, numbers, pass, skipped)
    }

    constructor (first: Aead, cipher: Cipher)
      requires first.generation == 0 && first.version < 0x1_0000
      ensures Valid() && fresh(writer) && fresh(writer.writeSequence) && fresh(writer.lastWriteSequence) && fresh(sink)
      ensures messages == [] && added == [] && sink.packets == [] && pass == [] && skipped == []
      ensures writer.aead == first && writer.cipher == cipher
    {
      hide FlightOk, LastPackets, UsesGenuine;
      writer := new Writer(first, cipher);
      sink := new Sink();
      messages, written, offset, complete, flightHasReply := [], 0, 0, false, false;
      writeSeq, mtu, noQueryMtu, writeShutdown := 0, 0, false, false;
      added, numbers, pass, skipped := [], [], [], [];
      new;
      NoFlightOk();
    }

    /** dtls_clear_outgoing_messages */
    method ClearOutgoing()
      requires Valid()
      modifies this`messages, this`written, this`offset, this`complete, this`flightHasReply
      modifies this`numbers, this`pass, this`skipped
      ensures Valid() && Now() == Cleared(old(Now())) && !complete
    {
      hide FlightOk, UsesGenuine;
      ClearedOk(Now());
      messages, written, offset, complete, flightHasReply := [], 0, 0, false, false;
      numbers, pass, skipped := [], [], [];
    }

    /**
      * dtls1_init_message, the body, and dtls1_finish_message: a serialized message with the next
      * message number.
      */
    method BuildMessage(msgType: byte, body: seq<byte>) returns (data: Option<seq<byte>>)
      requires Valid()
      ensures data.Some? <==> |body| <= MAX_U24
      ensures data.Some? ==>
        && Delivery.MessageOk(data.value, |added|)
        && data.value[0] == msgType && data.value[HM_HEADER_LENGTH..] == body
    {
      hide Accounted, LastPackets, UsesGenuine, CursorOk, Shaped, Delivery.MessagesOk, Used, ReplayWindow.Distinct, ReplayWindow.BigEndian;
      if |body| > MAX_U24 {
        return None;
      }
      var unfinished := HeaderBytes(Header(msgType, 0, writeSeq, 0, |body|)) + body;
      var a := new byte[|unfinished|](i requires 0 <= i < |unfinished| => unfinished[i]);
      assert a[..] == unfinished;
      var ok := FinishMessage(a);
      FinishedHeader(msgType, writeSeq, body, a[..]);
      data := Some(a[..]);
    }

    /** add_outgoing: the first message after a flush starts a new flight. */
    method AddOutgoing(isCcs: bool, data: seq<byte>) returns (ok: bool)
      requires Valid()
      requires !isCcs ==> Delivery.MessageOk(data, |added|)
      modifies this`messages, this`written, this`offset, this`complete, this`flightHasReply, this`writeSeq
      modifies this`added, this`numbers, this`pass, this`skipped
      ensures Valid()
      ensures !complete
      ensures var before := if old(complete) then Cleared(old(Now())) else old(Now());
        && (ok <==> |before.messages| < Ring.FLIGHT && |data| <= MAX_U32)
        && Now() == if ok then AddedTo(before, Outgoing(data, writer.wEpoch, isCcs)) else before
    {
      hide Delivery.MessageOk, FlightOk, UsesGenuine, Holds;
      if complete {
        ClearOutgoing();
      }
      if |messages| >= Ring.FLIGHT || |data| > MAX_U32 {
        return false;
      }
      AddedOk(Now(), Outgoing(data, writer.wEpoch, isCcs));
      numbers := numbers + [|added|];
      if !isCcs {
        writeSeq := (writeSeq + 1) % Ring.SEQUENCE_NUMBERS;
        UsesGenuineAdded(writer.uses, added, data);
        added := added + [data];
      }
      messages := messages + [Outgoing(data, writer.wEpoch, isCcs)];
      return true;
    }

    /** dtls1_update_mtu; `queried` is the transport's answer. */
    method UpdateMtu(queried: int)
      modifies this`mtu
      ensures mtu == if old(mtu) >= MIN_MTU || noQueryMtu then old(mtu)
                     else if MIN_MTU <= queried <= MAX_QUERIED_MTU then queried else DEFAULT_MTU
      ensures noQueryMtu || mtu >= MIN_MTU
    {
      if mtu < MIN_MTU && !noQueryMtu {
        mtu := if queried >= 0 && queried <= MAX_QUERIED_MTU && queried >= MIN_MTU then queried else DEFAULT_MTU;
      }
    }

    /** The epoch a message of the flight is sealed in, when its cipher is still there. */
    function UseEpoch(epoch: nat): Option<Epoch>
      reads writer`wEpoch
    {
      if writer.wEpoch >= 1 && epoch == writer.wEpoch - 1 then Some(Previous)
      else if epoch != writer.wEpoch then None
      else Some(Current)
    }

    /** Exactly the messages of the last two epochs can be sealed, each with the cipher of its epoch. */
    lemma EpochsKept(epoch: nat)
      requires writer.Structure()
      ensures UseEpoch(epoch).Some? <==> epoch == writer.wEpoch || epoch + 1 == writer.wEpoch
      ensures UseEpoch(epoch).Some? ==> writer.ChosenAead(UseEpoch(epoch).value).generation % EPOCHS == epoch
    {
      if UseEpoch(epoch) == Some(Previous) {
        EpochBefore(writer.aead.generation);
      }
    }

    /** The room that one record of the next message needs at least. */
    function Need(m: Outgoing): Option<nat>
      requires writer.Structure()
      reads writer`wEpoch, writer`aead, writer`lastAead
    {
      match UseEpoch(m.epoch)
      case None => None
      case Some(e) =>
        if m.isCcs then Some(|CCS_BODY| + writer.MaxSealOverhead(e))
        else Some(HM_HEADER_LENGTH + 1 + writer.MaxSealOverhead(e))
    }

    /** The cipher of the message is still there, and a record of it fits a packet. */
    predicate Sendable(m: Outgoing, mtu: nat)
      requires writer.Structure()
      reads writer`wEpoch, writer`aead, writer`lastAead
    {
      Need(m).Some? && Need(m).value <= mtu
    }

    predicate AllSendable(from: nat, to: nat, mtu: nat)
      requires writer.Structure() && to <= |messages|
      reads this`messages, writer`wEpoch, writer`aead, writer`lastAead
    {
      forall i :: from <= i < to ==> Sendable(messages[i], mtu)
    }

    /** The next epoch's cipher; the flight stays as it is. */
    method SetWriteState(next: Aead)
      requires Valid() && next.generation == writer.aead.generation + 1 && next.version < 0x1_0000
      modifies writer`wEpoch, writer`aead, writer`lastAead, writer`exhausted, writer`lastExhausted
      modifies writer.writeSequence, writer.lastWriteSequence
      ensures Valid() && writer.aead == next
    {
      hide FlightOk, LastPackets, UsesGenuine;
      writer.SetWriteState(next);
    }

    // ---------- Sealing ----------

    /** As many bytes as there are, or as there is room for. */
    static function AtMost(n: int, room: int): int {
      if n <= room then n else room
    }

    /** seal_next_message for a ChangeCipherSpec. */
    method SealCcs(maxOut: nat, e: Epoch) returns (r: SealResult, out: seq<byte>, ghost use: Use)
      requires Ready() && written < |messages| && (e.Previous? ==> writer.wEpoch >= 1)
      requires writer.ChosenAead(e).generation % EPOCHS == messages[written].epoch
      modifies writer`sealed, writer`uses, writer`exhausted, writer`lastExhausted, writer`overrun, writer`tries, writer`faults
      modifies writer.writeSequence, writer.lastWriteSequence
      ensures Ready() && old(writer.uses) <= writer.uses
      ensures r == NoProgress <==> maxOut < |CCS_BODY| + writer.MaxSealOverhead(e)
      ensures r != SealPartial
      ensures r == SealError <==> maxOut >= |CCS_BODY| + writer.MaxSealOverhead(e) && !old(writer.CipherWorks(CCS_BODY, e))
      ensures writer.faults == old(writer.faults) + if r == SealError then 1 else 0
      ensures r == SealSuccess ==>
        && |out| <= maxOut && RecordHead(out, Ring.CHANGE_CIPHER_SPEC, writer.ChosenAead(e).generation)
        && use in writer.uses && Carries(use, CcsPiece(written, messages[written].epoch)) && out == use.Bytes()
    {
      hide Used, ReplayWindow.Distinct, ReplayWindow.BigEndian, UsesGenuine, FlightOf, Shaped, Logged, RecordOf;
      use := *;
      if maxOut < |CCS_BODY| + writer.MaxSealOverhead(e) {
        return NoProgress, [], use;
      }
      var ok;
      ok, out, use := writer.SealRecord(Ring.CHANGE_CIPHER_SPEC, CCS_BODY, maxOut, e);
      UsesGenuineMore(old(writer.uses), use, added);
      r := if ok then SealSuccess else SealError;
    }

    /** Seals the plaintext of a fragment that is next in the flight. */
    method SealPlain(plain: seq<byte>, maxOut: nat, e: Epoch, ghost piece: Piece)
      returns (ok: bool, out: seq<byte>, ghost use: Use)
      requires Ready() && (e.Previous? ==> writer.wEpoch >= 1)
      requires piece.FragmentPiece? && piece.header.Fits() && plain == HeaderBytes(piece.header) + piece.body
      requires Advance(messages, Cursor(written, offset), piece).Some?
      requires writer.ChosenAead(e).generation % EPOCHS == piece.epoch
      modifies writer`sealed, writer`uses, writer`exhausted, writer`lastExhausted, writer`overrun, writer`tries, writer`faults
      modifies writer.writeSequence, writer.lastWriteSequence
      ensures writer.Valid() && UsesGenuine(writer.uses, added) && old(writer.uses) <= writer.uses
      ensures maxOut >= |plain| + writer.MaxSealOverhead(e) ==> (ok <==> old(writer.CipherWorks(plain, e)))
      ensures writer.faults == old(writer.faults) + if old(writer.CipherWorks(plain, e)) then 0 else 1
      ensures ok ==>
        && |out| <= maxOut && RecordHead(out, Ring.HANDSHAKE, writer.ChosenAead(e).generation)
        && use in writer.uses && Carries(use, piece) && out == use.Bytes()
    {
      hide Advance, HeaderBytes, Used, ReplayWindow.Distinct, ReplayWindow.BigEndian;
      hide UsesGenuine, FlightOf, Logged, RecordOf, MessageShape, Carries, PlainGenuine;
      ok, out, use := writer.SealRecord(Ring.HANDSHAKE, plain, maxOut, e);
      FragmentCarried(Now(), Cursor(written, offset), piece, use);
      UsesGenuineMore(old(writer.uses), use, added);
    }

    /** seal_next_message for a handshake message: as much of it as fits one record. */
    method SealFragment(maxOut: nat, m: Outgoing, e: Epoch)
      returns (r: SealResult, out: seq<byte>, ghost piece: Piece, ghost use: Use)
      requires Ready() && (e.Previous? ==> writer.wEpoch >= 1)
      requires written < |messages| && m == messages[written] && !m.isCcs
      requires writer.ChosenAead(e).generation % EPOCHS == m.epoch
      modifies this`offset
      modifies writer`sealed, writer`uses, writer`exhausted, writer`lastExhausted, writer`overrun, writer`tries, writer`faults
      modifies writer.writeSequence, writer.lastWriteSequence
      ensures writer.Valid() && UsesGenuine(writer.uses, added) && old(writer.uses) <= writer.uses
      ensures r == NoProgress <==> maxOut < HM_HEADER_LENGTH + 1 + writer.MaxSealOverhead(e)
      ensures writer.faults == old(writer.faults) + if r == SealError then 1 else 0
      ensures r.SealPartial? || r.SealSuccess? ==>
        && piece.FragmentPiece?
        && |piece.body| == AtMost(m.BodyLen() - old(offset), maxOut - HM_HEADER_LENGTH - writer.MaxSealOverhead(e))
      ensures r.SealPartial? || r.SealSuccess? ==>
        && |out| <= maxOut && RecordHead(out, Ring.HANDSHAKE, writer.ChosenAead(e).generation)
        && Advance(messages, Cursor(written, old(offset)), piece) ==
           Some(if r.SealSuccess? then Cursor(written + 1, offset) else Cursor(written, offset))
        && (r.SealPartial? ==> offset > 0) && use in writer.uses && Carries(use, piece) && out == use.Bytes()
      ensures r.SealError? || r.NoProgress? ==> offset == old(offset)
    {
      hide Advance, HeaderBytes, ParseFragment, U16Value, Used, ReplayWindow.Distinct, ReplayWindow.BigEndian;
      hide UsesGenuine, FlightOf, Logged, RecordOf, MessageShape, Carries, PlainGenuine, RecordHead, Writer.CipherWorks;
      var overhead, prefix := writer.MaxSealOverhead(e), writer.SealPrefixLen(e);
      var parsed := ParseFragment(m.data);
      piece, use := CcsPiece(0, 0), *;
      assert MessageShape(m.data);
      ShapeParses(m.data);
      if parsed.None? {
        assert false;
      }
      var (hdr, body, rest) := parsed.value;
      if hdr.fragOff != 0 || hdr.msgLen != |body| || offset > |body| || |rest| != 0 {
        assert false;
      }
      if maxOut < HM_HEADER_LENGTH + 1 + overhead || maxOut < prefix {
        return NoProgress, [], piece, use;
      }
      var todo := |body| - offset;
      if todo > maxOut - HM_HEADER_LENGTH - overhead {
        todo := maxOut - HM_HEADER_LENGTH - overhead;
      }
      var fragment := Header(hdr.msgType, hdr.msgLen, hdr.seqNum, offset, todo);
      var plain := HeaderBytes(fragment) + body[offset..offset + todo];
      if |plain| > maxOut - prefix {
        assert false;
      }
      piece := FragmentPiece(written, m.epoch, fragment, body[offset..offset + todo]);
      NextFragment(messages, Cursor(written, offset), todo);
      assert piece == NextPiece(m, Cursor(written, offset), todo);
      var ok;
      ok, out, use := SealPlain(plain, maxOut, e, piece);
      if !ok {
        return SealError, [], piece, use;
      }
      if todo == |body| - offset {
        offset := 0;
        return SealSuccess, out, piece, use;
      }
      offset := offset + todo;
      return SealPartial, out, piece, use;
    }

    /** seal_next_message */
    method SealNextMessage(maxOut: nat) returns (r: SealResult, out: seq<byte>, ghost piece: Piece, ghost use: Use)
      requires Ready() && written < |messages|
      modifies this`offset
      modifies writer`sealed, writer`uses, writer`exhausted, writer`lastExhausted, writer`overrun, writer`tries, writer`faults
      modifies writer.writeSequence, writer.lastWriteSequence
      ensures writer.Valid() && UsesGenuine(writer.uses, added) && old(writer.uses) <= writer.uses
      ensures Need(messages[written]).None? ==> r == SealError
      ensures Need(messages[written]).Some? ==> (r == NoProgress <==> maxOut < Need(messages[written]).value)
      ensures writer.faults == old(writer.faults) + if r == SealError && Need(messages[written]).Some? then 1 else 0
      ensures (r.SealPartial? || r.SealSuccess?) && !messages[written].isCcs ==>
        && piece.FragmentPiece?
        && |piece.body| == AtMost(messages[written].BodyLen() - old(offset), maxOut + 1 - Need(messages[written]).value)
      ensures r.SealPartial? || r.SealSuccess? ==>
        && |out| <= maxOut && RecordHead(out, if messages[written].isCcs then Ring.CHANGE_CIPHER_SPEC else Ring.HANDSHAKE, messages[written].epoch)
        && Advance(messages, Cursor(written, old(offset)), piece) ==
           Some(if r.SealSuccess? then Cursor(written + 1, offset) else Cursor(written, offset))
        && (r.SealPartial? ==> offset > 0) && use in writer.uses && Carries(use, piece) && out == use.Bytes()
      ensures r.SealError? || r.NoProgress? ==> offset == old(offset)
    {
      hide MessageShape, Used, ReplayWindow.Distinct, ReplayWindow.BigEndian, UsesGenuine, FlightOf, Shaped, Logged, RecordOf, HeaderBytes;
      var m := messages[written];
      piece, use := CcsPiece(written, m.epoch), *;
      var useEpoch := UseEpoch(m.epoch);
      if useEpoch.None? {
        return SealError, [], piece, use;
      }
      var e := useEpoch.value;
      if e.Previous? {
        EpochBefore(writer.aead.generation);
      }
      assert writer.ChosenAead(e).generation % EPOCHS == m.epoch == m.epoch % EPOCHS;
      if m.isCcs {
        r, out, use := SealCcs(maxOut, e);
      } else {
        r, out, piece, use := SealFragment(maxOut, m, e);
      }
    }

    /** One turn of the loop in seal_next_packet. */
    method SealMore(maxOut: nat, soFar: seq<byte>, ghost start: Cursor, ghost done: seq<Piece>)
      returns (r: SealResult, packet: seq<byte>, ghost pieces: seq<Piece>)
      requires Ready() && written < |messages| && |soFar| <= maxOut
      requires After(messages, start, done) == Some(Cursor(written, offset)) && Holds(soFar, done, writer.uses)
      modifies this`offset
      modifies writer`sealed, writer`uses, writer`exhausted, writer`lastExhausted, writer`overrun, writer`tries, writer`faults
      modifies writer.writeSequence, writer.lastWriteSequence
      ensures writer.Valid() && UsesGenuine(writer.uses, added) && old(writer.uses) <= writer.uses
      ensures Need(messages[written]).None? ==> r == SealError
      ensures Need(messages[written]).Some? ==> (r == NoProgress <==> maxOut - |soFar| < Need(messages[written]).value)
      ensures writer.faults == old(writer.faults) + if r == SealError && Need(messages[written]).Some? then 1 else 0
      ensures Holds(packet, pieces, writer.uses) && |packet| <= maxOut
      ensures r.SealPartial? || r.SealSuccess? ==>
        && pieces != [] && CursorOk(messages, Cursor(if r.SealSuccess? then written + 1 else written, offset))
        && After(messages, start, pieces) == Some(Cursor(if r.SealSuccess? then written + 1 else written, offset))
        && (r.SealPartial? ==> offset > 0)
      ensures r.SealError? || r.NoProgress? ==> offset == old(offset) && packet == soFar && pieces == done
    {
      hide Advance, After, CursorOk, Used, ReplayWindow.Distinct, ReplayWindow.BigEndian, RecordHead, Carries, Holds;
      hide UsesGenuine, FlightOf, Shaped, Logged, MessageShape;
      ghost var piece, before, use := CcsPiece(0, 0), Cursor(written, offset), *;
      ghost var log := writer.uses;
      var out;
      r, out, piece, use := SealNextMessage(maxOut - |soFar|);
      packet, pieces := soFar, done;
      HoldsLater(soFar, done, log, writer.uses);
      if r.SealPartial? || r.SealSuccess? {
        PacketMore(messages, start, done, before, piece, soFar, log, writer.uses, use);
        packet, pieces := soFar + out, done + [piece];
      }
    }

    /** seal_next_packet: records until the packet is full, or a message was cut. */
    method SealNextPacket(maxOut: nat) returns (r: PacketResult, packet: seq<byte>, ghost pieces: seq<Piece>)
      requires Ready() && written < |messages|
      modifies this`written, this`offset
      modifies writer`sealed, writer`uses, writer`exhausted, writer`lastExhausted, writer`overrun, writer`tries, writer`faults
      modifies writer.writeSequence, writer.lastWriteSequence
      ensures Ready() && old(writer.uses) <= writer.uses
      ensures After(messages, old(Cursor(written, offset)), pieces) == Some(Cursor(written, offset))
      ensures r.PacketSealed? ==> |packet| <= maxOut && pieces != [] && Holds(packet, pieces, writer.uses)
      ensures r.MtuTooSmall? ==> pieces == []
      ensures r.MtuTooSmall? <==> old(Need(messages[written])).Some? && maxOut < old(Need(messages[written])).value
      ensures old(written) <= written <= |messages|
      ensures r.PacketError? <==> writer.faults != old(writer.faults) || (written < |messages| && Need(messages[written]).None?)
      ensures r.PacketSealed? ==> AllSendable(old(written), written, maxOut)
      ensures r.PacketSealed? ==> written == |messages| || offset > 0 || maxOut - |packet| < Need(messages[written]).value
    {
      hide Advance, After, CursorOk, Used, ReplayWindow.Distinct, ReplayWindow.BigEndian, RecordHead, Carries, Holds;
      hide UsesGenuine, FlightOf, Shaped, Logged, MessageShape, Need;
      ghost var start, tooSmall := Cursor(written, offset), Need(messages[written]).Some? && maxOut < Need(messages[written]).value;
      packet, pieces := [], [];
      var madeProgress := false;
      HoldsNothing(writer.uses);
      AfterNothing(messages, start);
      while written < |messages|
        invariant Ready() && old(writer.uses) <= writer.uses && |packet| <= maxOut
        invariant After(messages, start, pieces) == Some(Cursor(written, offset))
        invariant Holds(packet, pieces, writer.uses)
        invariant madeProgress <==> pieces != []
        invariant pieces == [] ==> Cursor(written, offset) == start && packet == []
        invariant pieces != [] ==> !tooSmall
        invariant writer.faults == old(writer.faults) && old(written) <= written <= |messages|
        invariant AllSendable(old(written), written, maxOut)
        decreases |messages| - written
      {
        var sealedNow;
        sealedNow, packet, pieces := SealMore(maxOut, packet, start, pieces);
        if sealedNow.SealError? {
          return PacketError, [], pieces;
        }
        if sealedNow.NoProgress? {
          break;
        }
        madeProgress := true;
        if sealedNow.SealPartial? {
          break;
        }
        written := written + 1;
      }
      if !madeProgress {
        return MtuTooSmall, [], pieces;
      }
      return PacketSealed, packet, pieces;
    }

    /** One turn of the loop in send_flight: a packet whose write fails is taken back. */
    method SendPacket() returns (ret: int)
      requires Valid() && written < |messages|
      modifies this`written, this`offset, this`pass, this`skipped, sink
      modifies writer`sealed, writer`uses, writer`exhausted, writer`lastExhausted, writer`overrun, writer`tries, writer`faults
      modifies writer.writeSequence, writer.lastWriteSequence
      ensures Valid() && PacketsSent(old(sink.packets), sink.packets, old(pass), pass, mtu)
      ensures ret > 0 ==> 0 <= Rank(messages, Cursor(written, offset)) < old(Rank(messages, Cursor(written, offset)))
      ensures ret > 0 ==> |sink.packets| == old(|sink.packets|) + 1 && skipped == old(skipped)
      ensures ret <= 0 ==> sink.packets == old(sink.packets) && pass == old(pass)
      ensures ret <= 0 ==> Cursor(written, offset) == old(Cursor(written, offset)) || (old(skipped) < skipped && ret == -1)
      ensures skipped != old(skipped) ==> old(skipped) < skipped && ret == -1
      ensures old(written) <= written <= |messages|
      ensures ret > 0 ==> writer.faults == old(writer.faults) && sink.refused == old(sink.refused)
      ensures ret > 0 ==> AllSendable(old(written), written, mtu)
      ensures ret <= 0 ==>
        || writer.faults != old(writer.faults) || sink.refused != old(sink.refused)
        || (written < |messages| && !Sendable(messages[written], mtu))
    {
      hide FlightOk, After, Used, ReplayWindow.Distinct, ReplayWindow.BigEndian, MessageShape, CursorOk, Holds, UsesGenuine, Logged, LastPackets, Rank, Need, FlightOf, Shaped;
      ghost var before, log, packets := Now(), writer.uses, sink.packets;
      FlightParts(before);
      var oldWritten, oldOffset := written, offset;
      var r, packet;
      ghost var pieces;
      r, packet, pieces := SealNextPacket(mtu);
      LastPacketsLater(packets, pass, log, writer.uses);
      if r != PacketSealed {
        skipped := skipped + pieces;
        FlightSkipped(before, pieces, Now());
        return -1;
      }
      var bioRet := sink.Write(packet);
      if bioRet <= 0 {
        written, offset := oldWritten, oldOffset;
        return bioRet;
      }
      LastPacketsMore(packets, pass, writer.uses, packet, pieces);
      pass := pass + [pieces];
      FlightWrote(before, pieces);
      return bioRet;
    }

    /** The loop of send_flight. */
    method SendPackets() returns (ret: int)
      requires Valid()
      modifies this`written, this`offset, this`pass, this`skipped, sink
      modifies writer`sealed, writer`uses, writer`exhausted, writer`lastExhausted, writer`overrun, writer`tries, writer`faults
      modifies writer.writeSequence, writer.lastWriteSequence
      ensures Valid() && PacketsSent(old(sink.packets), sink.packets, old(pass), pass, mtu)
      ensures ret > 0 ==> Cursor(written, offset) == Cursor(|messages|, 0) && skipped == old(skipped)
      ensures skipped != old(skipped) ==> old(skipped) < skipped && ret == -1
      ensures ret > 0 <==>
        && AllSendable(old(written), |messages|, mtu)
        && writer.faults == old(writer.faults) && sink.refused == old(sink.refused)
    {
      hide FlightOk, CursorOk, PacketsSent, Rank, RankFrom, LastPackets, UsesGenuine, Sendable;
      hide Used, ReplayWindow.Distinct, ReplayWindow.BigEndian, Logged;
      ghost var packets, packetsPass := sink.packets, pass;
      NoPackets(packets, packetsPass, mtu);
      ret := 1;
      FlightParts(Now());
      while written < |messages|
        invariant Valid() && PacketsSent(packets, sink.packets, packetsPass, pass, mtu)
        invariant skipped == old(skipped) && ret == 1
        invariant old(written) <= written <= |messages| && AllSendable(old(written), written, mtu)
        invariant writer.faults == old(writer.faults) && sink.refused == old(sink.refused)
        decreases Rank(messages, Cursor(written, offset))
      {
        ghost var packetsNow, passNow := sink.packets, pass;
        ret := SendPacket();
        MorePackets(packets, packetsNow, sink.packets, packetsPass, passNow, pass, mtu);
        if ret <= 0 {
          return;
        }
        ret := 1;
      }
      FlightParts(Now());
    }

    /**
      * send_flight. After a success the packets of the pass, which are the last ones written, are the
      * whole flight exactly if no record was sealed and then skipped. It fails only if the connection is
      * shut down, a message's cipher is gone or its record does not fit a packet, a cipher or the transport
      * fails.
      */
    method SendFlight(queriedMtu: int) returns (ret: int)
      requires Valid()
      modifies this`written, this`offset, this`pass, this`skipped, this`mtu, sink
      modifies writer`sealed, writer`uses, writer`exhausted, writer`lastExhausted, writer`overrun, writer`tries, writer`faults
      modifies writer.writeSequence, writer.lastWriteSequence
      ensures Valid() && PacketsSent(old(sink.packets), sink.packets, old(pass), pass, mtu)
      ensures skipped != old(skipped) ==> old(skipped) < skipped && ret == -1
      ensures ret > 0 ==> (WholePass(messages, Flatten(pass)) <==> skipped == [])
      ensures ret > 0 <==>
        && !writeShutdown && AllSendable(old(written), |messages|, mtu)
        && writer.faults == old(writer.faults) && sink.refused == old(sink.refused)
    {
      hide FlightOk, Used, ReplayWindow.Distinct, ReplayWindow.BigEndian, LastPackets, UsesGenuine, WholePass;
      if writeShutdown {
        return -1;
      }
      UpdateMtu(queriedMtu);
      ret := SendPackets();
      if ret <= 0 {
        return;
      }
      var flushed := sink.Flush();
      if flushed <= 0 {
        return -1;
      }
      FlightDone(Now());
      return 1;
    }

    /** dtls1_flush_flight */
    method FlushFlight(queriedMtu: int) returns (ret: int)
      requires Valid()
      modifies this`written, this`offset, this`pass, this`skipped, this`mtu, this`complete, sink
      modifies writer`sealed, writer`uses, writer`exhausted, writer`lastExhausted, writer`overrun, writer`tries, writer`faults
      modifies writer.writeSequence, writer.lastWriteSequence
      ensures Valid() && complete && PacketsSent(old(sink.packets), sink.packets, old(pass), pass, mtu)
      ensures skipped != old(skipped) ==> old(skipped) < skipped && ret == -1
      ensures ret > 0 ==> (WholePass(messages, Flatten(pass)) <==> skipped == [])
      ensures ret > 0 <==>
        && !writeShutdown && AllSendable(old(written), |messages|, mtu)
        && writer.faults == old(writer.faults) && sink.refused == old(sink.refused)
    {
      hide FlightOk, LastPackets, UsesGenuine, WholePass, Used, ReplayWindow.Distinct, Logged;
      complete := true;
      ret := SendFlight(queriedMtu);
    }

    /** dtls1_retransmit_outgoing_messages: the whole flight again, whatever failed before. */
    method Retransmit(queriedMtu: int) returns (ret: int)
      requires Valid()
      modifies this`written, this`offset, this`pass, this`skipped, this`mtu, sink
      modifies writer`sealed, writer`uses, writer`exhausted, writer`lastExhausted, writer`overrun, writer`tries, writer`faults
      modifies writer.writeSequence, writer.lastWriteSequence
      ensures Valid() && PacketsSent(old(sink.packets), sink.packets, [], pass, mtu)
      ensures ret > 0 ==> WholePass(messages, Flatten(pass))
      ensures ret > 0 <==>
        && !writeShutdown && AllSendable(0, |messages|, mtu)
        && writer.faults == old(writer.faults) && sink.refused == old(sink.refused)
    {
      hide FlightOk, Used, ReplayWindow.Distinct, ReplayWindow.BigEndian, UsesGenuine, WholePass;
      ClearedOk(Now());
      written, offset := 0, 0;
      pass, skipped := [], [];
      ret := SendFlight(queriedMtu);
    }
  }

  /** dtls1_finish_message copies the fragment length over the message length. */
  method FinishMessage(a: array<byte>) returns (ok: bool)
    modifies a
    ensures ok <==> a.Length >= HM_HEADER_LENGTH
    ensures a[..] == if ok then Finished(old(a[..])) else old(a[..])
  {
    if a.Length < HM_HEADER_LENGTH {
      return false;
    }
    for i := 0 to 3
      invariant a[..1 + i] == old(a[..1]) + old(a[9..9 + i])
      invariant a[1 + i..] == old(a[1 + i..])
    {
      a[1 + i] := a[9 + i];
    }
    return true;
  }

  function Finished(data: seq<byte>): seq<byte>
    requires |data| >= HM_HEADER_LENGTH
  {
    data[..1] + data[9..12] + data[4..]
  }

  lemma FinishedHeader(msgType: byte, seqNum: nat, body: seq<byte>, data: seq<byte>)
    requires seqNum <= MAX_U16 && |body| <= MAX_U24
    requires data == Finished(HeaderBytes(Header(msgType, 0, seqNum, 0, |body|)) + body)
    ensures data == HeaderBytes(Header(msgType, |body|, seqNum, 0, |body|)) + body
    ensures data[HM_HEADER_LENGTH..] == body && data[..HM_HEADER_LENGTH] == HeaderBytes(Header(msgType, |body|, seqNum, 0, |body|))
  {
    var before := HeaderBytes(Header(msgType, 0, seqNum, 0, |body|)) + body;
    assert before[9..12] == U24Bytes(|body|);
    assert before[..1] == [msgType];
    assert before[4..] == U16Bytes(seqNum) + U24Bytes(0) + U24Bytes(|body|) + body;
  }
}
