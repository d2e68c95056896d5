/**
  * DTLS handshake messages end to end (section 4.2.6 of RFC 6347): whatever the network loses,
  * repeats or reorders, a message is handed out only as the sender serialized it.
  */
module DtlsDelivery {
  import opened Wire
  import opened Reassembly
  import opened HandshakeRing

  /** The k-th message of a connection, serialized as one fragment. */
  predicate MessageOk(m: seq<byte>, k: nat) {
    && HM_HEADER_LENGTH <= |m| <= HM_HEADER_LENGTH + MAX_U24
    && m[..HM_HEADER_LENGTH] == HeaderBytes(Header(m[0], |m| - HM_HEADER_LENGTH, k % SEQUENCE_NUMBERS, 0, |m| - HM_HEADER_LENGTH))
  }

  predicate MessagesOk(sent: seq<seq<byte>>) {
    forall k :: 0 <= k < |sent| ==> MessageOk(sent[k], k)
  }

  /** A fragment cut out of the k-th message. */
  predicate Genuine(h: Header, body: seq<byte>, m: seq<byte>, k: nat)
    requires MessageOk(m, k)
  {
    && h.fragOff + |body| <= |m| - HM_HEADER_LENGTH
    && h == Header(m[0], |m| - HM_HEADER_LENGTH, k % SEQUENCE_NUMBERS, h.fragOff, |body|)
    && body == m[HM_HEADER_LENGTH + h.fragOff..HM_HEADER_LENGTH + h.fragOff + |body|]
  }

  /** Message numbers that a reader of message n cannot mistake for others. */
  predicate Near(k: nat, n: nat) {
    n < k + SEQUENCE_NUMBERS - (FLIGHT - 1) && k < n + SEQUENCE_NUMBERS
  }

  /** A 16-bit number in the reader's window means the right message exactly if it is near. */
  lemma NumberMeans(k: nat, n: nat)
    requires var s, r := k % SEQUENCE_NUMBERS, n % SEQUENCE_NUMBERS; r <= s < r + FLIGHT
    ensures Near(k, n) <==> k == n + (k % SEQUENCE_NUMBERS - n % SEQUENCE_NUMBERS)
  {
    var s, r := k % SEQUENCE_NUMBERS, n % SEQUENCE_NUMBERS;
    var a, b := k / SEQUENCE_NUMBERS, n / SEQUENCE_NUMBERS;
    assert k == SEQUENCE_NUMBERS * a + s && n == SEQUENCE_NUMBERS * b + r;
  }

  // ---------- What the ring knows of the messages ----------

  /** Every byte marked as received is the sender's. */
  predicate PartOf(p: Partial, m: seq<byte>) {
    && |p.data| == |m| == HM_HEADER_LENGTH + |p.marked|
    && p.msgType == m[0]
    && p.data[..HM_HEADER_LENGTH] == m[..HM_HEADER_LENGTH]
    && forall j :: 0 <= j < |p.marked| ==> p.marked[j] ==> p.data[HM_HEADER_LENGTH + j] == m[HM_HEADER_LENGTH + j]
  }

  /** The index of the message in a slot, for a reader of message n. */
  function IndexOf(p: Partial, n: nat): int {
    n + (p.seqNum - n % SEQUENCE_NUMBERS)
  }

  predicate Faithful(slots: Slots, n: nat, sent: seq<seq<byte>>) {
    && WindowOk(slots, n % SEQUENCE_NUMBERS)
    && forall i :: 0 <= i < FLIGHT ==> slots[i].Some? ==> SlotFaithful(slots[i].value, n, sent)
  }

  predicate SlotFaithful(p: Partial, n: nat, sent: seq<seq<byte>>) {
    var k := IndexOf(p, n);
    0 <= k < |sent| && PartOf(p, sent[k])
  }

  lemma FreshPartOf(h: Header, junk: Junk, m: seq<byte>, k: nat)
    requires MessageOk(m, k) && h.Fits()
    requires h.msgType == m[0] && h.msgLen == |m| - HM_HEADER_LENGTH && h.seqNum == k % SEQUENCE_NUMBERS
    ensures PartOf(FreshPartial(h, junk), m)
  {
    hide HeaderBytes;
    assert FreshPartial(h, junk).data[..HM_HEADER_LENGTH] == WholeHeader(h);
  }

  lemma ReceivedPartOf(p: Partial, h: Header, body: seq<byte>, m: seq<byte>, k: nat)
    requires MessageOk(m, k) && PartOf(p, m) && Genuine(h, body, m, k)
    ensures PartOf(Received(p, h.fragOff, body), m)
  {
    hide HeaderBytes;
    var q := Received(p, h.fragOff, body);
    if !p.Complete() {
      assert q.data[..HM_HEADER_LENGTH] == p.data[..HM_HEADER_LENGTH];
      forall j | 0 <= j < |q.marked| && q.marked[j]
        ensures q.data[HM_HEADER_LENGTH + j] == m[HM_HEADER_LENGTH + j]
      {
        if h.fragOff <= j < h.fragOff + |body| {
          assert q.data[HM_HEADER_LENGTH + j] == body[j - h.fragOff];
        } else {
          assert q.data[HM_HEADER_LENGTH + j] == p.data[HM_HEADER_LENGTH + j];
        }
      }
    }
  }

  /** A message with every byte received is the sender's. */
  lemma CompleteIsSent(p: Partial, m: seq<byte>)
    requires PartOf(p, m) && p.Complete()
    ensures p.data == m
  {
    forall i | 0 <= i < |m|
      ensures p.data[i] == m[i]
    {
      if i < HM_HEADER_LENGTH {
        assert p.data[i] == p.data[..HM_HEADER_LENGTH][i] && m[i] == m[..HM_HEADER_LENGTH][i];
      } else {
        assert p.marked[i - HM_HEADER_LENGTH];
      }
    }
  }

  // ---------- One genuine fragment ----------

  /** When a genuine fragment is an error: only these cases, so never because it mismatches. */
  predicate Refused(c: Reading, h: Header) {
    || h.msgLen > c.maxLen
    || (c.rEpoch == 1 && h.seqNum != c.readSeq)
    || h.seqNum == c.readSeq + FLIGHT
  }

  lemma GenuineFragment(slots: Slots, c: Reading, n: nat, sent: seq<seq<byte>>, k: nat, h: Header, body: seq<byte>)
    requires MessagesOk(sent) && k < |sent| && Near(k, n) && Genuine(h, body, sent[k], k)
    requires Faithful(slots, n, sent) && c.readSeq == n % SEQUENCE_NUMBERS
    ensures var (after, ok) := AddFragment(slots, c, h, body);
      && Faithful(after, n, sent)
      && (ok <==> !Refused(c, h))
      && (ok && n <= k < n + FLIGHT && h.seqNum >= c.readSeq ==> Arrived(after, n, k, h.fragOff, |body|))
  {
    hide HeaderBytes, FreshPartial, Received, PartialOk;
    var m := sent[k];
    if Bounded(h, c.maxLen) && c.readSeq <= h.seqNum < c.readSeq + FLIGHT {
      NumberMeans(k, n);
      var i := h.seqNum % FLIGHT;
      if slots[i].Some? {
        assert SlotOk(slots[i].value, i, c.readSeq);
        SameResidue(slots[i].value.seqNum, h.seqNum, c.readSeq);
        assert IndexOf(slots[i].value, n) == k;
        assert Matches(slots[i].value, h);
      } else {
        FreshPartOf(h, c.junk, m, k);
      }
      LookupKeeps(slots, c, h);
      var found := Lookup(slots, c, h).value;
      assert PartOf(found[i].value, m);
      ReceivedPartOf(found[i].value, h, body, m, k);
      ReceivedSame(found[i].value, h.fragOff, body);
      AddFragmentKeeps(slots, c, h, body);
    }
  }

  lemma ReceivedSame(p: Partial, off: nat, body: seq<byte>)
    requires |p.data| == HM_HEADER_LENGTH + |p.marked| && off + |body| <= |p.marked|
    ensures var q := Received(p, off, body);
      && q.seqNum == p.seqNum && |q.marked| == |p.marked|
      && forall j :: off <= j < off + |body| ==> q.marked[j]
  {
  }

  /** The bytes of a fragment of message k count as received. */
  predicate Arrived(slots: Slots, n: nat, k: nat, off: nat, len: nat) {
    var slot := slots[k % SEQUENCE_NUMBERS % FLIGHT];
    && slot.Some? && IndexOf(slot.value, n) == k
    && off + len <= |slot.value.marked|
    && forall j :: off <= j < off + len ==> slot.value.marked[j]
  }

  // ---------- Records and whole runs ----------

  /** A record made of genuine fragments of near messages. */
  ghost predicate GenuineRecord(record: seq<byte>, sent: seq<seq<byte>>, n: nat)
    requires MessagesOk(sent)
    decreases |record|
  {
    record == [] ||
    match ParseFragment(record)
    case None => false
    case Some((h, body, rest)) =>
      GenuineRecord(rest, sent, n) && exists k: nat :: k < |sent| && Near(k, n) && Genuine(h, body, sent[k], k)
  }

  /** Also a record that is given up half-way leaves only the sender's bytes behind. */
  lemma {:induction false} GenuineRecordFaithful(slots: Slots, c: Reading, n: nat, sent: seq<seq<byte>>, record: seq<byte>)
    requires MessagesOk(sent) && GenuineRecord(record, sent, n)
    requires Faithful(slots, n, sent) && c.readSeq == n % SEQUENCE_NUMBERS
    ensures Faithful(AddFragments(slots, c, record).0, n, sent)
    decreases |record|
  {
    hide AddFragment, ParseFragment, Genuine, MessageOk, SlotFaithful, SlotOk;
    if record != [] {
      var (h, body, rest) := ParseFragment(record).value;
      var k: nat :| k < |sent| && Near(k, n) && Genuine(h, body, sent[k], k);
      GenuineFragment(slots, c, n, sent, k, h, body);
      var (after, ok) := AddFragment(slots, c, h, body);
      if ok {
        GenuineRecordFaithful(after, c, n, sent, rest);
      }
    }
  }

  lemma MessageRead(slots: Slots, n: nat, sent: seq<seq<byte>>)
    requires Faithful(slots, n, sent)
    requires Current(slots, n % SEQUENCE_NUMBERS).Some? && Current(slots, n % SEQUENCE_NUMBERS).value.Complete()
    ensures n < |sent| && Current(slots, n % SEQUENCE_NUMBERS).value.data == sent[n]
    ensures Faithful(slots[n % SEQUENCE_NUMBERS % FLIGHT := None], n + 1, sent)
  {
    hide PartOf, PartialOk;
    var r := n % SEQUENCE_NUMBERS;
    var i := r % FLIGHT;
    assert SlotOk(slots[i].value, i, r) && SlotFaithful(slots[i].value, n, sent);
    SameResidue(slots[i].value.seqNum, r, r);
    CompleteIsSent(slots[i].value, sent[n]);
    WindowMoves(slots, r);
    var moved: Slots := slots[i := None];
    assert (n + 1) % SEQUENCE_NUMBERS == (r + 1) % SEQUENCE_NUMBERS;
    forall j | 0 <= j < FLIGHT && moved[j].Some?
      ensures SlotFaithful(moved[j].value, n + 1, sent)
    {
      assert SlotFaithful(slots[j].value, n, sent);
      assert r < MAX_U16;
    }
  }

  /** A reader: its ring, how many messages it has read, and what it read. */
  datatype Reader = Reader(slots: Slots, n: nat, read: seq<seq<byte>>)

  datatype Event = Record(record: seq<byte>, rEpoch: nat, maxLen: nat, junk: Junk) | Read

  /** One step of a reader: some record arrives, or the next message is read if it is complete. */
  ghost predicate Step(r: Reader, event: Event, after: Reader, sent: seq<seq<byte>>)
    requires MessagesOk(sent)
  {
    var readSeq := r.n % SEQUENCE_NUMBERS;
    match event
    case Record(record, rEpoch, maxLen, junk) =>
      && WindowOk(r.slots, readSeq) && GenuineRecord(record, sent, r.n)
      && after == r.(slots := AddFragments(r.slots, Reading(readSeq, rEpoch, maxLen, junk), record).0)
    case Read =>
      && Current(r.slots, readSeq).Some? && Current(r.slots, readSeq).value.Complete()
      && after == Reader(r.slots[readSeq % FLIGHT := None], r.n + 1, r.read + [Current(r.slots, readSeq).value.data])
  }

  /**
    * In any run from the start of a connection, across any number of wraps of the 16-bit message
    * number, the messages read are the first ones sent, byte for byte.
    */
  lemma {:induction false} EveryMessageIsSent(run: seq<Reader>, events: seq<Event>, sent: seq<seq<byte>>)
    requires MessagesOk(sent) && |run| == |events| + 1
    requires run[0].n == 0 && run[0].read == [] && Empty(run[0].slots)
    requires forall i :: 0 <= i < |events| ==> Step(run[i], events[i], run[i + 1], sent)
    ensures var last := run[|events|];
      && Faithful(last.slots, last.n, sent)
      && last.n <= |sent| && last.read == sent[..last.n]
    decreases |events|
  {
    if events != [] {
      var e := |events| - 1;
      EveryMessageIsSent(run[..e + 1], events[..e], sent);
      hide Faithful, AddFragments, GenuineRecord, MessagesOk;
      var before, after := run[e], run[e + 1];
      assert Step(before, events[e], after, sent);
      match events[e]
      case Record(record, rEpoch, maxLen, junk) =>
        GenuineRecordFaithful(before.slots, Reading(before.n % SEQUENCE_NUMBERS, rEpoch, maxLen, junk), before.n, sent, record);
      case Read =>
        MessageRead(before.slots, before.n, sent);
        assert sent[..before.n] + [sent[before.n]] == sent[..before.n + 1];
    }
  }
}
