/**
  * DTLS handshake flights: which fragments a pass over the messages consists of, that they tile the
  * messages, and what the packets that carry them contain.
  */
module FlightPlan {
  import opened Wire
  import opened Reassembly
  import opened DtlsSend
  import Ring = HandshakeRing
  import Delivery = DtlsDelivery

  const CCS_BODY: seq<byte> := [1]

  /** DTLS_OUTGOING_MESSAGE: a message serialized as a single fragment, or a ChangeCipherSpec. */
  datatype Outgoing = Outgoing(data: seq<byte>, epoch: nat, isCcs: bool) {
    /** The message without its header. */
    function Body(): seq<byte> {
      if isCcs || |data| < HM_HEADER_LENGTH then [] else data[HM_HEADER_LENGTH..]
    }

    function BodyLen(): nat {
      |Body()|
    }
  }

  /** outgoing_written and outgoing_offset */
  datatype Cursor = Cursor(written: nat, offset: nat)

  predicate CursorOk(ms: seq<Outgoing>, c: Cursor) {
    c.written <= |ms| && if c.written < |ms| && c.offset > 0 then c.offset < ms[c.written].BodyLen() else c.offset == 0
  }

  /** The plaintext of one record of the flight. */
  datatype Piece =
    | CcsPiece(index: nat, epoch: nat)
    | FragmentPiece(index: nat, epoch: nat, header: Header, body: seq<byte>)

  /** Where the cursor is after a record, when that record is what the flight has there. */
  function Advance(ms: seq<Outgoing>, c: Cursor, p: Piece): Option<Cursor> {
    if c.written >= |ms| || p.index != c.written || p.epoch != ms[c.written].epoch then None
    else
      var m := ms[c.written];
      match p
      case CcsPiece(_, _) => if m.isCcs then Some(Cursor(c.written + 1, 0)) else None
      case FragmentPiece(_, _, h, body) =>
        var end := c.offset + |body|;
        if m.isCcs || |m.data| < HM_HEADER_LENGTH || end > m.BodyLen() || (body == [] && m.BodyLen() > 0) then None
        else if h != Header(m.data[0], m.BodyLen(), U16Value(m.data[4..6]), c.offset, |body|) then None
        else if body != m.Body()[c.offset..end] then None
        else Some(if end == m.BodyLen() then Cursor(c.written + 1, 0) else Cursor(c.written, end))
  }

  /** Where the cursor is after a sequence of records. */
  function After(ms: seq<Outgoing>, c: Cursor, pieces: seq<Piece>): Option<Cursor> {
    if pieces == [] then Some(c)
    else
      var before := After(ms, c, pieces[..|pieces| - 1]);
      if before.None? then None else Advance(ms, before.value, pieces[|pieces| - 1])
  }

  lemma AfterAdd(ms: seq<Outgoing>, c: Cursor, pieces: seq<Piece>, p: Piece)
    ensures After(ms, c, pieces + [p]) ==
      var before := After(ms, c, pieces); if before.None? then None else Advance(ms, before.value, p)
  {
    assert (pieces + [p])[..|pieces|] == pieces;
  }

  lemma {:induction false} AfterConcat(ms: seq<Outgoing>, c: Cursor, a: seq<Piece>, b: seq<Piece>)
    requires After(ms, c, a).Some?
    ensures After(ms, c, a + b) == After(ms, After(ms, c, a).value, b)
  {
    if b == [] {
      assert a + b == a;
    } else {
      var n := |b| - 1;
      AfterConcat(ms, c, a, b[..n]);
      assert a + b == a + b[..n] + [b[n]];
      AfterAdd(ms, c, a + b[..n], b[n]);
    }
  }

  /** What is left of the flight: every message counts once, and every byte not yet sent. */
  function Rank(ms: seq<Outgoing>, c: Cursor): int {
    RankFrom(ms, c.written) - c.offset
  }

  function RankFrom(ms: seq<Outgoing>, written: nat): nat
    decreases |ms| - written
  {
    if written >= |ms| then 0 else ms[written].BodyLen() + 1 + RankFrom(ms, written + 1)
  }

  lemma RankNonNegative(ms: seq<Outgoing>, c: Cursor)
    requires CursorOk(ms, c)
    ensures 0 <= Rank(ms, c)
  {
  }

  lemma AdvanceProgress(ms: seq<Outgoing>, c: Cursor, p: Piece)
    requires CursorOk(ms, c) && Advance(ms, c, p).Some?
    ensures CursorOk(ms, Advance(ms, c, p).value)
    ensures 0 <= Rank(ms, Advance(ms, c, p).value) < Rank(ms, c)
  {
  }

  // ---------- Accounting ----------

  /** What a record takes off the flight: its bytes, and one for the end of a message. */
  function Work(p: Piece): nat {
    match p
    case CcsPiece(_, _) => 1
    case FragmentPiece(_, _, h, body) => |body| + if h.fragOff + |body| == h.msgLen then 1 else 0
  }

  function WorkOf(pieces: seq<Piece>): nat {
    if pieces == [] then 0 else WorkOf(pieces[..|pieces| - 1]) + Work(pieces[|pieces| - 1])
  }

  lemma {:induction false} WorkConcat(a: seq<Piece>, b: seq<Piece>)
    ensures WorkOf(a + b) == WorkOf(a) + WorkOf(b)
  {
    if b == [] {
      assert a + b == a;
    } else {
      WorkConcat(a, b[..|b| - 1]);
      assert (a + b)[..|a + b| - 1] == a + b[..|b| - 1];
    }
  }

  lemma AdvanceWork(ms: seq<Outgoing>, c: Cursor, p: Piece)
    requires CursorOk(ms, c) && Advance(ms, c, p).Some?
    ensures CursorOk(ms, Advance(ms, c, p).value)
    ensures 1 <= Work(p) && Rank(ms, c) == Rank(ms, Advance(ms, c, p).value) + Work(p)
  {
  }

  /** The records of a pass take off exactly what lies between the cursor before and after. */
  lemma {:induction false} AfterWork(ms: seq<Outgoing>, c: Cursor, pieces: seq<Piece>)
    requires CursorOk(ms, c) && After(ms, c, pieces).Some?
    ensures CursorOk(ms, After(ms, c, pieces).value)
    ensures |pieces| <= WorkOf(pieces) && Rank(ms, c) == Rank(ms, After(ms, c, pieces).value) + WorkOf(pieces)
  {
    hide Rank, Work, Advance, CursorOk;
    if pieces != [] {
      var n := |pieces| - 1;
      AfterWork(ms, c, pieces[..n]);
      AdvanceWork(ms, After(ms, c, pieces[..n]).value, pieces[n]);
    }
  }

  lemma {:induction false} RankExtend(ms: seq<Outgoing>, m: Outgoing, written: nat)
    requires written <= |ms|
    ensures RankFrom(ms + [m], written) == RankFrom(ms, written) + m.BodyLen() + 1
    decreases |ms| - written
  {
    if written < |ms| {
      RankExtend(ms, m, written + 1);
    } else {
      assert RankFrom(ms + [m], written + 1) == 0;
    }
  }

  // ---------- Tiling ----------

  /** The bodies of the fragments of one message, in the order they were sent. */
  function BodyOf(pieces: seq<Piece>, index: nat): seq<byte> {
    if pieces == [] then []
    else
      var last := pieces[|pieces| - 1];
      BodyOf(pieces[..|pieces| - 1], index) + if last.FragmentPiece? && last.index == index then last.body else []
  }

  /** The bytes of a message before the cursor. */
  function Before(ms: seq<Outgoing>, c: Cursor, index: nat): seq<byte>
    requires CursorOk(ms, c) && index < |ms|
  {
    if index < c.written then ms[index].Body()
    else if index == c.written then ms[index].Body()[..c.offset]
    else []
  }

  lemma AdvanceCovers(ms: seq<Outgoing>, c: Cursor, p: Piece, index: nat)
    requires CursorOk(ms, c) && index < |ms| && Advance(ms, c, p).Some? && CursorOk(ms, Advance(ms, c, p).value)
    ensures Before(ms, Advance(ms, c, p).value, index) ==
            Before(ms, c, index) + if p.FragmentPiece? && p.index == index then p.body else []
  {
    if index == c.written {
      var body := ms[index].Body();
      if p.FragmentPiece? {
        var end := c.offset + |p.body|;
        assert body[..c.offset] + body[c.offset..end] == body[..end];
        assert end == |body| ==> body[..end] == body;
      }
    }
  }

  /**
    * Fragments sent in order continue a message where the cursor is, each starting where the last
    * one ended. What is before the cursor at the start is in none of them.
    */
  lemma {:induction false} Tiles(ms: seq<Outgoing>, c: Cursor, pieces: seq<Piece>, index: nat)
    requires CursorOk(ms, c) && After(ms, c, pieces).Some? && index < |ms|
    ensures CursorOk(ms, After(ms, c, pieces).value)
    ensures Before(ms, c, index) + BodyOf(pieces, index) == Before(ms, After(ms, c, pieces).value, index)
  {
    hide Before, Advance;
    if pieces != [] {
      var n := |pieces| - 1;
      Tiles(ms, c, pieces[..n], index);
      var d := After(ms, c, pieces[..n]).value;
      AdvanceProgress(ms, d, pieces[n]);
      AdvanceCovers(ms, d, pieces[n], index);
      if pieces[n].FragmentPiece? && pieces[n].index == index {
        assert Before(ms, c, index) + (BodyOf(pieces[..n], index) + pieces[n].body) == Before(ms, c, index) + BodyOf(pieces[..n], index) + pieces[n].body;
      } else {
        assert BodyOf(pieces, index) == BodyOf(pieces[..n], index);
      }
    } else {
      assert Before(ms, c, index) + [] == Before(ms, c, index);
    }
  }

  lemma NothingBefore(ms: seq<Outgoing>, index: nat)
    requires index < |ms|
    ensures Before(ms, Cursor(0, 0), index) == []
    ensures Before(ms, Cursor(|ms|, 0), index) == ms[index].Body()
  {
  }

  /** A whole pass contains every message completely and every ChangeCipherSpec. */
  lemma WholePassTiles(ms: seq<Outgoing>, pieces: seq<Piece>)
    requires After(ms, Cursor(0, 0), pieces) == Some(Cursor(|ms|, 0))
    ensures forall i :: 0 <= i < |ms| ==> BodyOf(pieces, i) == ms[i].Body()
    ensures forall i :: 0 <= i < |ms| && ms[i].isCcs ==> CcsPiece(i, ms[i].epoch) in pieces
  {
    hide After, Before, BodyOf;
    forall i | 0 <= i < |ms|
      ensures BodyOf(pieces, i) == ms[i].Body()
    {
      NothingBefore(ms, i);
      Tiles(ms, Cursor(0, 0), pieces, i);
      assert [] + BodyOf(pieces, i) == BodyOf(pieces, i);
    }
    forall i | 0 <= i < |ms| && ms[i].isCcs
      ensures CcsPiece(i, ms[i].epoch) in pieces
    {
      CcsSent(ms, pieces, i);
    }
  }

  lemma {:induction false} CcsSent(ms: seq<Outgoing>, pieces: seq<Piece>, i: nat)
    requires After(ms, Cursor(0, 0), pieces).Some? && i < After(ms, Cursor(0, 0), pieces).value.written
    requires i < |ms| && ms[i].isCcs
    ensures CcsPiece(i, ms[i].epoch) in pieces
  {
    if pieces != [] {
      var n := |pieces| - 1;
      var before := After(ms, Cursor(0, 0), pieces[..n]).value;
      if i < before.written {
        CcsSent(ms, pieces[..n], i);
      } else {
        assert pieces[n] == CcsPiece(i, ms[i].epoch);
      }
    }
  }

  /** Messages added to the flight later do not change what was sent of the earlier ones. */
  lemma {:induction false} AfterExtend(ms: seq<Outgoing>, c: Cursor, pieces: seq<Piece>, m: Outgoing)
    requires After(ms, c, pieces).Some?
    ensures After(ms + [m], c, pieces) == After(ms, c, pieces)
  {
    if pieces != [] {
      AfterExtend(ms, c, pieces[..|pieces| - 1], m);
    }
  }

  function Flatten(packets: seq<seq<Piece>>): seq<Piece> {
    if packets == [] then [] else Flatten(packets[..|packets| - 1]) + packets[|packets| - 1]
  }

  lemma FlattenAdd(packets: seq<seq<Piece>>, packet: seq<Piece>)
    ensures Flatten(packets + [packet]) == Flatten(packets) + packet
  {
    assert (packets + [packet])[..|packets|] == packets;
  }

  /** Every message of the flight, completely and without gap or overlap, and every ChangeCipherSpec. */
  predicate WholePass(ms: seq<Outgoing>, pieces: seq<Piece>) {
    && After(ms, Cursor(0, 0), pieces) == Some(Cursor(|ms|, 0))
    && (forall i :: 0 <= i < |ms| ==> BodyOf(pieces, i) == ms[i].Body())
    && (forall i :: 0 <= i < |ms| && ms[i].isCcs ==> CcsPiece(i, ms[i].epoch) in pieces)
  }

  // ---------- The state of a flight ----------

  /**
    * A flight being sent: its messages and the cursor, every handshake message added so far and
    * which of them are in the flight, the records of the packets written since its start, and those
    * that were sealed in a packet that a later error made the sender give up.
    */
  datatype Flight = Flight(
    messages: seq<Outgoing>, cursor: Cursor, writeSeq: nat,
    added: seq<seq<byte>>, numbers: seq<nat>, pass: seq<seq<Piece>>, skipped: seq<Piece>)

  ghost predicate FlightOk(f: Flight) {
    && |f.messages| <= Ring.FLIGHT
    && FlightOf(f.messages, f.numbers, f.added) && f.writeSeq == |f.added| % Ring.SEQUENCE_NUMBERS
    && Shaped(f.messages) && CursorOk(f.messages, f.cursor)
    && Accounted(f)
  }

  /** What was written, skipped, and is left, is the flight; without skipped records it is in order. */
  predicate Accounted(f: Flight) {
    && Rank(f.messages, Cursor(0, 0)) == Rank(f.messages, f.cursor) + WorkOf(Flatten(f.pass)) + WorkOf(f.skipped)
    && (f.skipped != [] ==> WorkOf(f.skipped) > 0)
    && (f.skipped == [] ==> After(f.messages, Cursor(0, 0), Flatten(f.pass)) == Some(f.cursor))
  }

  /** The messages of the flight are some of those added, whole. */
  predicate FlightOf(messages: seq<Outgoing>, numbers: seq<nat>, added: seq<seq<byte>>) {
    && Delivery.MessagesOk(added)
    && |numbers| == |messages|
    && forall i :: 0 <= i < |messages| ==> !messages[i].isCcs ==> numbers[i] < |added| && messages[i].data == added[numbers[i]]
  }

  /** Serialized as one fragment that is the whole message. */
  predicate MessageShape(data: seq<byte>) {
    && HM_HEADER_LENGTH <= |data| <= HM_HEADER_LENGTH + MAX_U24
    && U24Value(data[1..4]) == U24Value(data[9..12]) == |data| - HM_HEADER_LENGTH && U24Value(data[6..9]) == 0
  }

  predicate Shaped(ms: seq<Outgoing>) {
    forall i :: 0 <= i < |ms| ==> !ms[i].isCcs ==> MessageShape(ms[i].data)
  }

  lemma SerializedShape(data: seq<byte>, k: nat)
    requires Delivery.MessageOk(data, k)
    ensures MessageShape(data)
  {
    var h := Header(data[0], |data| - HM_HEADER_LENGTH, k % Ring.SEQUENCE_NUMBERS, 0, |data| - HM_HEADER_LENGTH);
    var header := data[..HM_HEADER_LENGTH];
    FragmentRoundTrip(h, data[HM_HEADER_LENGTH..], []);
    assert HeaderBytes(h) + data[HM_HEADER_LENGTH..] + [] == data;
  }

  function Cleared(f: Flight): Flight {
    Flight([], Cursor(0, 0), f.writeSeq, f.added, [], [], [])
  }

  function AddedTo(f: Flight, m: Outgoing): Flight {
    var g := f.(messages := f.messages + [m], numbers := f.numbers + [|f.added|]);
    if m.isCcs then g else g.(writeSeq := (f.writeSeq + 1) % Ring.SEQUENCE_NUMBERS, added := f.added + [m.data])
  }

  function Rewound(f: Flight): Flight {
    f.(cursor := Cursor(0, 0), pass := [], skipped := [])
  }

  lemma ClearedOk(f: Flight)
    requires FlightOk(f)
    ensures FlightOk(Cleared(f)) && FlightOk(Rewound(f))
  {
    hide Delivery.MessageOk, HeaderBytes, MessageShape;
  }

  lemma AddedOk(f: Flight, m: Outgoing)
    requires FlightOk(f) && |f.messages| < Ring.FLIGHT && (!m.isCcs ==> Delivery.MessageOk(m.data, |f.added|))
    ensures FlightOk(AddedTo(f, m))
  {
    hide FlightOf, MessageShape, Flatten, Delivery.MessageOk, After, Accounted;
    if !m.isCcs {
      SerializedShape(m.data, |f.added|);
    }
    AddedFlightOf(f, m);
    AddedCursor(f.messages, f.cursor, m);
    AddedAccounted(f, m);
  }

  lemma AddedAccounted(f: Flight, m: Outgoing)
    requires Accounted(f) && CursorOk(f.messages, f.cursor)
    ensures Accounted(AddedTo(f, m))
  {
    hide RankFrom, After, WorkOf, Flatten;
    RankExtend(f.messages, m, 0);
    RankExtend(f.messages, m, f.cursor.written);
    if f.skipped == [] {
      AfterExtend(f.messages, Cursor(0, 0), Flatten(f.pass), m);
    }
  }

  lemma AddedFlightOf(f: Flight, m: Outgoing)
    requires FlightOf(f.messages, f.numbers, f.added) && (!m.isCcs ==> Delivery.MessageOk(m.data, |f.added|))
    ensures FlightOf(AddedTo(f, m).messages, AddedTo(f, m).numbers, AddedTo(f, m).added)
  {
    hide Delivery.MessageOk;
  }

  lemma AddedCursor(ms: seq<Outgoing>, c: Cursor, m: Outgoing)
    requires CursorOk(ms, c)
    ensures CursorOk(ms + [m], c)
  {
  }

  lemma FlightParts(f: Flight)
    requires FlightOk(f)
    ensures FlightOf(f.messages, f.numbers, f.added)
    ensures Shaped(f.messages) && CursorOk(f.messages, f.cursor) && f.cursor.written <= |f.messages|
    ensures f.cursor.written == |f.messages| ==> f.cursor.offset == 0
  {
  }

  lemma FlightSkipped(before: Flight, pieces: seq<Piece>, after: Flight)
    requires FlightOk(before) && After(before.messages, before.cursor, pieces) == Some(after.cursor)
    requires after == before.(cursor := after.cursor, skipped := before.skipped + pieces)
    ensures FlightOk(after) && (pieces == [] ==> after == before)
  {
    hide FlightOf, Shaped, Rank, CursorOk, After;
    AfterWork(before.messages, before.cursor, pieces);
    WorkConcat(before.skipped, pieces);
    if pieces == [] {
      assert before.skipped + pieces == before.skipped;
      assert After(before.messages, before.cursor, pieces) == Some(before.cursor) by { AfterNothing(before.messages, before.cursor); }
    }
  }

  lemma AfterNothing(ms: seq<Outgoing>, c: Cursor)
    ensures After(ms, c, []) == Some(c)
  {
  }

  lemma FlightWrote(before: Flight, pieces: seq<Piece>)
    requires FlightOk(before) && After(before.messages, before.cursor, pieces).Some? && pieces != []
    ensures var cursor := After(before.messages, before.cursor, pieces).value;
      && FlightOk(before.(cursor := cursor, pass := before.pass + [pieces]))
      && 0 <= Rank(before.messages, cursor) < Rank(before.messages, before.cursor)
  {
    hide FlightOf, Shaped, Rank, CursorOk, After, WorkOf, Flatten;
    AfterWork(before.messages, before.cursor, pieces);
    RankNonNegative(before.messages, After(before.messages, before.cursor, pieces).value);
    FlattenAdd(before.pass, pieces);
    WorkConcat(Flatten(before.pass), pieces);
    if before.skipped == [] {
      AfterConcat(before.messages, Cursor(0, 0), Flatten(before.pass), pieces);
    }
  }

  /** When the cursor is at the end, the packets are the whole flight exactly if no record was skipped. */
  lemma FlightDone(f: Flight)
    requires FlightOk(f) && f.cursor == Cursor(|f.messages|, 0)
    ensures WholePass(f.messages, Flatten(f.pass)) <==> f.skipped == []
  {
    hide FlightOf, Shaped, BodyOf, Flatten, After, WorkOf;
    if f.skipped == [] {
      WholePassTiles(f.messages, Flatten(f.pass));
    } else if WholePass(f.messages, Flatten(f.pass)) {
      AfterWork(f.messages, Cursor(0, 0), Flatten(f.pass));
    }
  }

  /**
    * Any records may come first and be skipped: when the rest are then written, a flight in full order
    * is at its end without being sent. So every flight that consists of two records or more can fail.
    */
  lemma SkippedFirst(f: Flight, first: seq<Piece>, rest: seq<Piece>)
    requires FlightOk(f) && f == Rewound(f) && first != [] && rest != []
    requires After(f.messages, Cursor(0, 0), first + rest) == Some(Cursor(|f.messages|, 0))
    ensures var middle := After(f.messages, Cursor(0, 0), first);
      middle.Some? && FlightOk(f.(cursor := middle.value, skipped := first))
    ensures var end := f.(cursor := Cursor(|f.messages|, 0), skipped := first, pass := [rest]);
      FlightOk(end) && !WholePass(end.messages, Flatten(end.pass))
  {
    hide FlightOk, WholePass, After;
    AfterPrefix(f.messages, Cursor(0, 0), first, rest);
    var middle := f.(cursor := After(f.messages, Cursor(0, 0), first).value, skipped := [] + first);
    FlightSkipped(f, first, middle);
    assert [] + first == first;
    AfterConcat(f.messages, Cursor(0, 0), first, rest);
    FlightWrote(middle, rest);
    assert [] + [rest] == [rest];
    FlightDone(middle.(cursor := Cursor(|f.messages|, 0), pass := [rest]));
  }

  lemma {:induction false} AfterPrefix(ms: seq<Outgoing>, c: Cursor, a: seq<Piece>, b: seq<Piece>)
    requires After(ms, c, a + b).Some?
    ensures After(ms, c, a).Some?
  {
    if b == [] {
      assert a + b == a;
    } else {
      assert (a + b)[..|a + b| - 1] == a + b[..|b| - 1];
      AfterPrefix(ms, c, a, b[..|b| - 1]);
    }
  }

  /** Two ChangeCipherSpecs, the first of which was sealed into a packet that was never written. */
  lemma SkipExample(data: seq<byte>, epoch: nat)
    ensures var m := Outgoing(data, epoch, true);
      var end := Flight([m, m], Cursor(2, 0), 0, [], [0, 0], [[CcsPiece(1, epoch)]], [CcsPiece(0, epoch)]);
      FlightOk(end) && !WholePass(end.messages, Flatten(end.pass))
  {
    hide FlightOk, WholePass, Flatten;
    var m := Outgoing(data, epoch, true);
    var first, rest := [CcsPiece(0, epoch)], [CcsPiece(1, epoch)];
    NoFlightOk();
    var none := Flight([], Cursor(0, 0), 0, [], [], [], []);
    AddedOk(none, m);
    AddedOk(AddedTo(none, m), m);
    var f := AddedTo(AddedTo(none, m), m);
    assert f.messages == [m, m] && f.numbers == [0, 0];
    AfterAdd(f.messages, Cursor(0, 0), [], first[0]);
    AfterAdd(f.messages, Cursor(0, 0), first, rest[0]);
    assert [] + first == first;
    SkippedFirst(f, first, rest);
  }

  /** The fragment of `todo` bytes at the cursor. */
  function NextPiece(m: Outgoing, c: Cursor, todo: nat): Piece
    requires MessageShape(m.data) && !m.isCcs && c.offset + todo <= m.BodyLen()
  {
    var h := Header(m.data[0], m.BodyLen(), U16Value(m.data[4..6]), c.offset, todo);
    FragmentPiece(c.written, m.epoch, h, m.Body()[c.offset..c.offset + todo])
  }

  lemma NextFragment(ms: seq<Outgoing>, c: Cursor, todo: nat)
    requires CursorOk(ms, c) && c.written < |ms|
    requires var m := ms[c.written]; MessageShape(m.data) && !m.isCcs && c.offset + todo <= m.BodyLen() && (todo == 0 ==> m.BodyLen() == 0)
    ensures var m := ms[c.written];
      Advance(ms, c, NextPiece(m, c, todo)) ==
      Some(if c.offset + todo == m.BodyLen() then Cursor(c.written + 1, 0) else Cursor(c.written, c.offset + todo))
  {
  }

  lemma ShapeParses(data: seq<byte>)
    requires MessageShape(data)
    ensures ParseFragment(data) ==
      Some((Header(data[0], |data| - HM_HEADER_LENGTH, U16Value(data[4..6]), 0, |data| - HM_HEADER_LENGTH), data[HM_HEADER_LENGTH..], []))
  {
    assert data[12..|data|] == data[12..];
    assert data[|data|..] == [];
  }

  // ---------- Packets ----------

  function PlainOf(p: Piece): seq<byte> {
    match p
    case CcsPiece(_, _) => CCS_BODY
    case FragmentPiece(_, _, h, body) => if h.Fits() then HeaderBytes(h) + body else []
  }

  function TypeOf(p: Piece): byte {
    if p.CcsPiece? then Ring.CHANGE_CIPHER_SPEC else Ring.HANDSHAKE
  }

  /** A use of a cipher on exactly the plaintext of that piece, in its epoch. */
  predicate Carries(u: Use, p: Piece) {
    && u.Ok() && u.contentType == TypeOf(p) && u.plain == PlainOf(p) && u.epoch == p.epoch
    && (p.FragmentPiece? ==> p.header.Fits())
  }

  function Concat(us: seq<Use>): seq<byte>
    requires forall i :: 0 <= i < |us| ==> us[i].Ok()
  {
    if us == [] then [] else Concat(us[..|us| - 1]) + us[|us| - 1].Bytes()
  }

  predicate HoldsAs(packet: seq<byte>, pieces: seq<Piece>, log: seq<Use>, us: seq<Use>) {
    && |us| == |pieces|
    && (forall i :: 0 <= i < |us| ==> us[i] in log && Carries(us[i], pieces[i]))
    && packet == Concat(us)
  }

  /** The packet is the records, in order, that the ciphers made of the plaintexts of those pieces. */
  ghost predicate Holds(packet: seq<byte>, pieces: seq<Piece>, log: seq<Use>) {
    exists us :: HoldsAs(packet, pieces, log, us)
  }

  lemma HoldsNothing(log: seq<Use>)
    ensures Holds([], [], log)
  {
    assert HoldsAs([], [], log, []);
  }

  lemma HoldsMore(packet: seq<byte>, pieces: seq<Piece>, log: seq<Use>, later: seq<Use>, u: Use, p: Piece)
    requires Holds(packet, pieces, log) && log <= later && u in later && Carries(u, p)
    ensures Holds(packet + u.Bytes(), pieces + [p], later)
  {
    hide PlainOf;
    var us :| HoldsAs(packet, pieces, log, us);
    assert (us + [u])[..|us|] == us;
    assert HoldsAs(packet + u.Bytes(), pieces + [p], later, us + [u]);
  }

  lemma HoldsLater(packet: seq<byte>, pieces: seq<Piece>, log: seq<Use>, later: seq<Use>)
    requires Holds(packet, pieces, log) && log <= later
    ensures Holds(packet, pieces, later)
  {
    hide Carries;
    var us :| HoldsAs(packet, pieces, log, us);
    assert HoldsAs(packet, pieces, later, us);
  }

  /** A packet and the cursor after one more record. */
  lemma PacketMore(ms: seq<Outgoing>, start: Cursor, pieces: seq<Piece>, c: Cursor, p: Piece,
                   packet: seq<byte>, log: seq<Use>, later: seq<Use>, u: Use)
    requires After(ms, start, pieces) == Some(c) && CursorOk(ms, c) && Advance(ms, c, p).Some?
    requires Holds(packet, pieces, log) && log <= later && u in later && Carries(u, p)
    ensures After(ms, start, pieces + [p]) == Advance(ms, c, p) && CursorOk(ms, Advance(ms, c, p).value)
    ensures Holds(packet + u.Bytes(), pieces + [p], later)
  {
    hide Advance, After, Holds, Carries, CursorOk;
    AfterAdd(ms, start, pieces, p);
    AdvanceProgress(ms, c, p);
    HoldsMore(packet, pieces, log, later, u, p);
  }

  /** The last packets are those of the pass: each holds exactly its pieces. */
  ghost predicate LastPackets(packets: seq<seq<byte>>, pass: seq<seq<Piece>>, log: seq<Use>) {
    && |pass| <= |packets|
    && forall k :: 0 <= k < |pass| ==> Holds(packets[|packets| - |pass| + k], pass[k], log)
  }

  lemma LastPacketsLater(packets: seq<seq<byte>>, pass: seq<seq<Piece>>, log: seq<Use>, later: seq<Use>)
    requires LastPackets(packets, pass, log) && log <= later
    ensures LastPackets(packets, pass, later)
  {
    forall k | 0 <= k < |pass|
      ensures Holds(packets[|packets| - |pass| + k], pass[k], later)
    {
      HoldsLater(packets[|packets| - |pass| + k], pass[k], log, later);
    }
  }

  lemma LastPacketsMore(packets: seq<seq<byte>>, pass: seq<seq<Piece>>, log: seq<Use>, packet: seq<byte>, pieces: seq<Piece>)
    requires LastPackets(packets, pass, log) && Holds(packet, pieces, log)
    ensures LastPackets(packets + [packet], pass + [pieces], log)
  {
    hide Holds;
    forall k | 0 <= k < |pass| + 1
      ensures Holds((packets + [packet])[|packets| - |pass| + k], (pass + [pieces])[k], log)
    {
    }
  }

  /** The packets written are those of the pass, each at most as long as the MTU. */
  predicate PacketsSent(before: seq<seq<byte>>, after: seq<seq<byte>>, passBefore: seq<seq<Piece>>, passAfter: seq<seq<Piece>>, mtu: nat) {
    && before <= after && passBefore <= passAfter
    && |after| - |before| == |passAfter| - |passBefore|
    && forall i :: |before| <= i < |after| ==> |after[i]| <= mtu
  }

  lemma NoPackets(packets: seq<seq<byte>>, pass: seq<seq<Piece>>, mtu: nat)
    ensures PacketsSent(packets, packets, pass, pass, mtu)
  {
  }

  lemma MorePackets(a: seq<seq<byte>>, b: seq<seq<byte>>, c: seq<seq<byte>>,
                    passA: seq<seq<Piece>>, passB: seq<seq<Piece>>, passC: seq<seq<Piece>>, mtu: nat)
    requires PacketsSent(a, b, passA, passB, mtu) && PacketsSent(b, c, passB, passC, mtu)
    ensures PacketsSent(a, c, passA, passC, mtu)
  {
    assert forall i :: |a| <= i < |b| ==> c[i] == b[i];
  }

  // ---------- Genuine fragments ----------

  /** The plaintext of one fragment of the k-th message. */
  predicate FragmentOf(plain: seq<byte>, h: Header, body: seq<byte>, added: seq<seq<byte>>, k: nat)
    requires Delivery.MessagesOk(added)
  {
    k < |added| && h.Fits() && plain == HeaderBytes(h) + body && Delivery.Genuine(h, body, added[k], k)
  }

  ghost predicate PlainGenuine(plain: seq<byte>, added: seq<seq<byte>>)
    requires Delivery.MessagesOk(added)
  {
    exists k: nat, h: Header, body: seq<byte> :: FragmentOf(plain, h, body, added, k)
  }

  /** Nothing was ever sealed as a handshake record but fragments of the messages added. */
  ghost predicate UsesGenuine(log: seq<Use>, added: seq<seq<byte>>) {
    && Delivery.MessagesOk(added)
    && forall u :: u in log ==> u.contentType == Ring.HANDSHAKE ==> PlainGenuine(u.plain, added)
  }

  lemma UsesGenuineMore(log: seq<Use>, u: Use, added: seq<seq<byte>>)
    requires UsesGenuine(log, added) && (u.contentType == Ring.HANDSHAKE ==> PlainGenuine(u.plain, added))
    ensures UsesGenuine(log + [u], added)
  {
    hide PlainGenuine;
  }

  lemma UsesGenuineAdded(log: seq<Use>, added: seq<seq<byte>>, data: seq<byte>)
    requires UsesGenuine(log, added) && Delivery.MessageOk(data, |added|)
    ensures UsesGenuine(log, added + [data])
  {
    hide Delivery.MessageOk, Delivery.Genuine, HeaderBytes;
    assert Delivery.MessagesOk(added + [data]);
    forall u | u in log && u.contentType == Ring.HANDSHAKE
      ensures PlainGenuine(u.plain, added + [data])
    {
      var k: nat, h, body :| FragmentOf(u.plain, h, body, added, k);
      assert FragmentOf(u.plain, h, body, added + [data], k);
    }
  }

  /** The numbers in a fragment's header are big-endian (section 4.2.2 of RFC 6347). */
  lemma HeaderLayout(h: Header)
    requires h.Fits()
    ensures var b := HeaderBytes(h);
      && b[0] == h.msgType
      && ReplayWindow.BigEndian(b[1..4]) == h.msgLen && ReplayWindow.BigEndian(b[4..6]) == h.seqNum
      && ReplayWindow.BigEndian(b[6..9]) == h.fragOff && ReplayWindow.BigEndian(b[9..12]) == h.fragLen
  {
    var b := HeaderBytes(h);
    ThreeBytes(h.msgLen);
    ThreeBytes(h.fragOff);
    ThreeBytes(h.fragLen);
    TwoBytesValue(h.seqNum);
    hide ReplayWindow.BigEndian;
    var x, w, y, z := U24Bytes(h.msgLen), U16Bytes(h.seqNum), U24Bytes(h.fragOff), U24Bytes(h.fragLen);
    assert w == TwoBytes(h.seqNum);
    assert b == [h.msgType] + x + w + y + z && |x| == |y| == |z| == 3 && |w| == 2;
    assert b[1..4] == x;
    assert b[4..6] == w;
    assert b[6..9] == y;
    var front := [h.msgType] + x + w + y;
    assert b == front + z && |front| == 9;
    assert b[..12] == b;
    assert b[9..] == z;
  }

  lemma ThreeBytes(n: nat)
    requires n <= MAX_U24
    ensures ReplayWindow.BigEndian(U24Bytes(n)) == n
  {
    var b := U24Bytes(n);
    TwoBytesValue(n / 0x100);
    assert b[..2] == TwoBytes(n / 0x100);
  }

  /** What the flight sends of a handshake message is what its receiver takes for genuine. */
  lemma PieceIsGenuine(f: Flight, c: Cursor, p: Piece)
    requires FlightOf(f.messages, f.numbers, f.added) && p.FragmentPiece? && Advance(f.messages, c, p).Some?
    ensures p.index < |f.messages| && f.numbers[p.index] < |f.added|
    ensures Delivery.Genuine(p.header, p.body, f.added[f.numbers[p.index]], f.numbers[p.index])
  {
    hide HeaderBytes;
    var k := f.numbers[p.index];
    var data := f.added[k];
    var n := |data| - HM_HEADER_LENGTH;
    assert Delivery.MessageOk(data, k);
    SerializedNumber(data, k);
    assert data[HM_HEADER_LENGTH..][c.offset..c.offset + |p.body|] == data[HM_HEADER_LENGTH + c.offset..HM_HEADER_LENGTH + c.offset + |p.body|];
  }

  /** So what is sealed for a piece of the flight is the plaintext of a genuine fragment. */
  lemma PieceSealedGenuine(f: Flight, c: Cursor, p: Piece)
    requires FlightOf(f.messages, f.numbers, f.added) && p.FragmentPiece? && p.header.Fits() && Advance(f.messages, c, p).Some?
    ensures PlainGenuine(PlainOf(p), f.added)
  {
    hide Advance, HeaderBytes;
    PieceIsGenuine(f, c, p);
    var k := f.numbers[p.index];
    assert FragmentOf(PlainOf(p), p.header, p.body, f.added, k);
  }

  /** A cipher that was given the bytes of a fragment at the cursor carries that piece. */
  lemma FragmentCarried(f: Flight, c: Cursor, p: Piece, u: Use)
    requires FlightOf(f.messages, f.numbers, f.added) && p.FragmentPiece? && p.header.Fits() && Advance(f.messages, c, p).Some?
    requires u.contentType == Ring.HANDSHAKE && u.plain == HeaderBytes(p.header) + p.body && u.epoch == p.epoch
    ensures u.Ok() ==> Carries(u, p)
    ensures PlainGenuine(u.plain, f.added)
  {
    hide HeaderBytes, Advance, FlightOf, PlainGenuine;
    PieceSealedGenuine(f, c, p);
  }

  lemma NoFlightOk()
    ensures FlightOk(Flight([], Cursor(0, 0), 0, [], [], [], [])) && LastPackets([], [], []) && UsesGenuine([], [])
  {
  }

  lemma SerializedNumber(data: seq<byte>, k: nat)
    requires Delivery.MessageOk(data, k)
    ensures U16Value(data[4..6]) == k % Ring.SEQUENCE_NUMBERS
  {
    assert data[4..6] == data[..HM_HEADER_LENGTH][4..6] == U16Bytes(k % Ring.SEQUENCE_NUMBERS);
  }

  /** A record that carries it is one the receiver of a near message handles faithfully. */
  lemma FragmentRecordGenuine(h: Header, body: seq<byte>, sent: seq<seq<byte>>, k: nat, n: nat)
    requires Delivery.MessagesOk(sent) && k < |sent| && Delivery.Near(k, n) && Delivery.Genuine(h, body, sent[k], k)
    requires h.Fits()
    ensures Delivery.GenuineRecord(HeaderBytes(h) + body, sent, n)
  {
    hide HeaderBytes, ParseFragment, Delivery.MessageOk;
    FragmentRoundTrip(h, body, []);
    assert HeaderBytes(h) + body + [] == HeaderBytes(h) + body;
  }

  /** The type and epoch in the header of a record. */
  predicate RecordHead(out: seq<byte>, contentType: byte, generation: nat) {
    |out| >= HEADER_LENGTH && out[0] == contentType && ReplayWindow.BigEndian(out[3..5]) == generation % EPOCHS
  }
}
