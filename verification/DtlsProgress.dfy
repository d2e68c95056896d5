/**
  * What it takes for a DTLS handshake message to be read (section 4.2.6 of RFC 6347): its fragments, in any
  * order, any number of times, overlapping or not, among fragments of other messages.
  */
module DtlsProgress {
  import opened Wire
  import opened Reassembly
  import opened HandshakeRing
  import opened DtlsDelivery

  /** A fragment of the k-th message. */
  datatype Arrival = Arrival(k: nat, header: Header, body: seq<byte>)

  /** All are fragments of messages that a reader of message n cannot mistake. */
  predicate AllGenuine(arrivals: seq<Arrival>, sent: seq<seq<byte>>, n: nat)
    requires MessagesOk(sent)
  {
    forall i :: 0 <= i < |arrivals| ==>
      var a := arrivals[i];
      a.k < |sent| && Near(a.k, n) && Genuine(a.header, a.body, sent[a.k], a.k)
  }

  /** One record for each fragment; those that are refused change nothing. */
  ghost function Fed(slots: Slots, c: Reading, n: nat, sent: seq<seq<byte>>, arrivals: seq<Arrival>): (r: Slots)
    requires MessagesOk(sent) && Faithful(slots, n, sent) && c.readSeq == n % SEQUENCE_NUMBERS
    requires AllGenuine(arrivals, sent, n)
    ensures Faithful(r, n, sent)
  {
    if arrivals == [] then slots
    else
      var last := arrivals[|arrivals| - 1];
      var before := Fed(slots, c, n, sent, arrivals[..|arrivals| - 1]);
      GenuineLength(last, sent);
      GenuineFragment(before, c, n, sent, last.k, last.header, last.body);
      AddFragment(before, c, last.header, last.body).0
  }

  lemma GenuineLength(a: Arrival, sent: seq<seq<byte>>)
    requires MessagesOk(sent) && a.k < |sent| && Genuine(a.header, a.body, sent[a.k], a.k)
    ensures a.header.Fits() && a.header.fragLen == |a.body|
  {
    assert MessageOk(sent[a.k], a.k);
  }

  /** What has arrived of message n stays, whatever fragment comes next. */
  lemma MarksKept(slots: Slots, c: Reading, h: Header, body: seq<byte>, n: nat, off: nat, len: nat)
    requires h.Fits() && |body| == h.fragLen && WindowOk(slots, c.readSeq) && Arrived(slots, n, n, off, len)
    ensures Arrived(AddFragment(slots, c, h, body).0, n, n, off, len)
  {
    hide HeaderBytes, FreshPartial, IndexOf, Received;
    var i := n % SEQUENCE_NUMBERS % FLIGHT;
    if Bounded(h, c.maxLen) && Lookup(slots, c, h).Some? && h.seqNum % FLIGHT == i {
      ReceivedKeeps(slots[i].value, h.fragOff, body, n);
    }
  }

  lemma ReceivedKeeps(p: Partial, off: nat, body: seq<byte>, n: nat)
    requires |p.data| == HM_HEADER_LENGTH + |p.marked| && off + |body| <= |p.marked|
    ensures var q := Received(p, off, body);
      IndexOf(q, n) == IndexOf(p, n) && |q.marked| == |p.marked| && forall j :: 0 <= j < |p.marked| && p.marked[j] ==> q.marked[j]
  {
  }

  /** Message n is neither too long nor behind an epoch change that its reader has not made. */
  lemma {:induction false} FragmentArrived(slots: Slots, c: Reading, n: nat, sent: seq<seq<byte>>, arrivals: seq<Arrival>, i: nat)
    requires MessagesOk(sent) && Faithful(slots, n, sent) && c.readSeq == n % SEQUENCE_NUMBERS
    requires AllGenuine(arrivals, sent, n) && i < |arrivals| && arrivals[i].k == n
    requires n < |sent| && |sent[n]| - HM_HEADER_LENGTH <= c.maxLen
    ensures Arrived(Fed(slots, c, n, sent, arrivals), n, n, arrivals[i].header.fragOff, |arrivals[i].body|)
  {
    hide AddFragment, Arrived, Faithful, MessageOk;
    var m := |arrivals| - 1;
    var last := arrivals[m];
    var before := Fed(slots, c, n, sent, arrivals[..m]);
    GenuineLength(last, sent);
    if i == m {
      GenuineFragment(before, c, n, sent, n, last.header, last.body);
      NotRefused(c, last, n, sent);
    } else {
      FragmentArrived(slots, c, n, sent, arrivals[..m], i);
      assert WindowOk(before, c.readSeq) by { FaithfulWindow(before, n, sent); }
      MarksKept(before, c, last.header, last.body, n, arrivals[i].header.fragOff, |arrivals[i].body|);
    }
  }

  lemma FaithfulWindow(slots: Slots, n: nat, sent: seq<seq<byte>>)
    requires Faithful(slots, n, sent)
    ensures WindowOk(slots, n % SEQUENCE_NUMBERS)
  {
  }

  lemma NotRefused(c: Reading, a: Arrival, n: nat, sent: seq<seq<byte>>)
    requires MessagesOk(sent) && n < |sent| && a.k == n && Genuine(a.header, a.body, sent[n], n)
    requires c.readSeq == n % SEQUENCE_NUMBERS && |sent[n]| - HM_HEADER_LENGTH <= c.maxLen
    ensures !Refused(c, a.header) && a.header.seqNum == c.readSeq
  {
    hide MessageOk;
  }

  /** Every byte of message n is in some fragment; an empty message has one, too. */
  ghost predicate Covered(arrivals: seq<Arrival>, n: nat, len: nat) {
    && (exists i :: 0 <= i < |arrivals| && arrivals[i].k == n)
    && forall j: nat :: j < len ==> CoveredAt(arrivals, n, j)
  }

  ghost predicate CoveredAt(arrivals: seq<Arrival>, n: nat, j: nat) {
    exists i: nat :: Covers(arrivals, n, i, j)
  }

  predicate Covers(arrivals: seq<Arrival>, n: nat, i: nat, j: nat) {
    && i < |arrivals| && arrivals[i].k == n
    && arrivals[i].header.fragOff <= j < arrivals[i].header.fragOff + |arrivals[i].body|
  }

  /**
    * Once fragments that cover the next message have arrived, it is complete, and what is read is the message
    * that was sent, byte for byte.
    */
  lemma CoveredIsRead(slots: Slots, c: Reading, n: nat, sent: seq<seq<byte>>, arrivals: seq<Arrival>)
    requires MessagesOk(sent) && Faithful(slots, n, sent) && c.readSeq == n % SEQUENCE_NUMBERS
    requires AllGenuine(arrivals, sent, n) && n < |sent| && |sent[n]| - HM_HEADER_LENGTH <= c.maxLen
    requires Covered(arrivals, n, |sent[n]| - HM_HEADER_LENGTH)
    ensures var current := Current(Fed(slots, c, n, sent, arrivals), c.readSeq);
      current.Some? && current.value.Complete() && current.value.data == sent[n]
  {
    hide AddFragment, MessageOk, Faithful, Fed, PartOf;
    var after := Fed(slots, c, n, sent, arrivals);
    var some :| 0 <= some < |arrivals| && arrivals[some].k == n;
    FragmentArrived(slots, c, n, sent, arrivals, some);
    var p := Current(after, c.readSeq).value;
    SizeOfSlot(after, n, sent);
    forall j | 0 <= j < |p.marked|
      ensures p.marked[j]
    {
      assert CoveredAt(arrivals, n, j);
      var i: nat :| Covers(arrivals, n, i, j);
      FragmentArrived(slots, c, n, sent, arrivals, i);
    }
    MessageRead(after, n, sent);
  }

  lemma SizeOfSlot(slots: Slots, n: nat, sent: seq<seq<byte>>)
    requires Faithful(slots, n, sent) && n < |sent| && Current(slots, n % SEQUENCE_NUMBERS).Some?
    requires IndexOf(Current(slots, n % SEQUENCE_NUMBERS).value, n) == n
    ensures |Current(slots, n % SEQUENCE_NUMBERS).value.marked| == |sent[n]| - HM_HEADER_LENGTH
  {
    assert SlotFaithful(Current(slots, n % SEQUENCE_NUMBERS).value, n, sent);
  }
}
